/** The client's security helpers: the markup-stripping input sanitiser, the
    origin allow-list and the sliding one-second click window that flags
    bot-like clicking. */
module SecurityUtils {
  import opened Util

  predicate IsAngle(c: char) {
    c == '<' || c == '>'
  }

  /** `sanitizeInput`: every `<` and `>` removed, everything else kept. */
  function Sanitize(input: string): (r: string)
    ensures |r| <= |input|
    ensures forall i :: 0 <= i < |r| ==> !IsAngle(r[i])
    decreases |input|
  {
    if |input| == 0 then ""
    else (if IsAngle(input[0]) then "" else [input[0]]) + Sanitize(input[1..])
  }

  /** Sanitising works piece by piece, so the order of the kept characters is
      the input's: the result for a concatenation is the concatenation of the
      results. */
  lemma {:induction false} SanitizeAppend(a: string, b: string)
    ensures Sanitize(a + b) == Sanitize(a) + Sanitize(b)
    decreases |a|
  {
    if |a| > 0 {
      assert (a + b)[0] == a[0] && (a + b)[1..] == a[1..] + b;
      SanitizeAppend(a[1..], b);
      var h := if IsAngle(a[0]) then "" else [a[0]];
      assert Sanitize(a + b) == h + (Sanitize(a[1..]) + Sanitize(b));
    } else {
      assert a + b == b;
    }
  }

  /** Text without angle brackets passes through unchanged. */
  lemma {:induction false} SanitizeKeepsClean(input: string)
    requires forall i :: 0 <= i < |input| ==> !IsAngle(input[i])
    ensures Sanitize(input) == input
    decreases |input|
  {
    if |input| > 0 {
      SanitizeKeepsClean(input[1..]);
    }
  }

  /** Sanitising twice is sanitising once. */
  lemma SanitizeIdempotent(input: string)
    ensures Sanitize(Sanitize(input)) == Sanitize(input)
  {
    SanitizeKeepsClean(Sanitize(input));
  }

  /** Only the two brackets are removed: every other character occurs in the
      output exactly as often as in the input. */
  lemma {:induction false} SanitizeKeepsOthers(input: string, c: char)
    requires !IsAngle(c)
    ensures multiset(Sanitize(input))[c] == multiset(input)[c]
    ensures multiset(Sanitize(input))['<'] == 0 && multiset(Sanitize(input))['>'] == 0
    decreases |input|
  {
    if |input| > 0 {
      SanitizeKeepsOthers(input[1..], c);
      assert input == [input[0]] + input[1..];
    }
  }

  /** The origin Telegram's web client posts from. */
  const TelegramOrigin: string := "https://t.me"

  /** `checkOrigin`, with the page's own origin passed in: the two allowed
      origins are Telegram's and the page's. */
  function CheckOrigin(origin: string, currentOrigin: string): (ok: bool)
    ensures ok <==> origin in {TelegramOrigin, currentOrigin}
  {
    origin == TelegramOrigin || origin == currentOrigin
  }

  /** The sliding window is one second long. */
  const WindowMs: int := 1000

  /** More clicks than this inside the window are suspicious. */
  const MaxClicksPerSecond: int := 10

  /** The recorded click times that are still inside the window ending at `now`. */
  function Recent(clicks: seq<int>, now: int): (r: seq<int>)
    ensures |r| <= |clicks|
    ensures forall i :: 0 <= i < |r| ==> now - r[i] < WindowMs
    decreases |clicks|
  {
    if |clicks| == 0 then []
    else (if now - clicks[0] < WindowMs then [clicks[0]] else []) + Recent(clicks[1..], now)
  }

  /** Filtering keeps every click inside the window, as often as it was recorded,
      and drops every click outside it. */
  lemma {:induction false} RecentKeepsWindow(clicks: seq<int>, now: int, t: int)
    ensures now - t < WindowMs ==> multiset(Recent(clicks, now))[t] == multiset(clicks)[t]
    ensures now - t >= WindowMs ==> multiset(Recent(clicks, now))[t] == 0
    decreases |clicks|
  {
    if |clicks| > 0 {
      RecentKeepsWindow(clicks[1..], now, t);
      assert clicks == [clicks[0]] + clicks[1..];
    }
  }

  /** Filtering at an earlier time and then at a later one is filtering at the
      later one: a click dropped early would have been dropped later anyway. */
  lemma {:induction false} RecentLater(clicks: seq<int>, earlier: int, later: int)
    requires earlier <= later
    ensures Recent(Recent(clicks, earlier), later) == Recent(clicks, later)
    decreases |clicks|
  {
    if |clicks| > 0 {
      RecentLater(clicks[1..], earlier, later);
      var head := if earlier - clicks[0] < WindowMs then [clicks[0]] else [];
      RecentAppend(head, Recent(clicks[1..], earlier), later);
    }
  }

  /** Filtering works piece by piece. */
  lemma {:induction false} RecentAppend(a: seq<int>, b: seq<int>, now: int)
    ensures Recent(a + b, now) == Recent(a, now) + Recent(b, now)
    decreases |a|
  {
    if |a| > 0 {
      assert (a + b)[0] == a[0] && (a + b)[1..] == a[1..] + b;
      RecentAppend(a[1..], b, now);
      var h := if now - a[0] < WindowMs then [a[0]] else [];
      assert Recent(a + b, now) == h + (Recent(a[1..], now) + Recent(b, now));
    } else {
      assert a + b == b;
    }
  }

  /** `botDetection`: the click times of the last second. */
  class BotDetection {
    var clicks: seq<int>

    constructor ()
      ensures clicks == []
    {
      clicks := [];
    }

    /** `track()` at time `now`: drops the clicks older than the window,
        records this one, and reports (where the source throws) whether the
        window now holds too many. The click stays recorded either way. */
    method Track(now: int) returns (suspicious: bool)
      modifies this
      ensures clicks == Recent(old(clicks), now) + [now]
      ensures suspicious <==> |Recent(old(clicks), now)| >= MaxClicksPerSecond
    {
      clicks := Recent(clicks, now) + [now];
      suspicious := |clicks| > MaxClicksPerSecond;
    }
  }
}
