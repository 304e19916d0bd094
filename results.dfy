/** The helpers of the results page: the title shown for a club, whether there
    is a finished game to show, whether sharing is offered, the wait before the
    next share, the result reduced to player ids, and which lists are shown. */
module Results {
  import opened Util
  import opened Types
  import GameEngine

  // ---------------------------------------------------------------------------
  // Club title
  // ---------------------------------------------------------------------------

  /** The title that replaces a club name carrying a season. */
  const SeasonTitle: string := "Твой тир-лист клубов "

  /** The pattern `\d{4}\/\d{2}` matches at `i`: four digits, a slash, two digits. */
  predicate IsSeasonAt(s: string, i: int) {
    0 <= i && i + 7 <= |s| && AllDigits(s[i..i + 4]) && s[i + 4] == '/' && AllDigits(s[i + 5..i + 7])
  }

  /** The leftmost match at or after `from`, as `String.prototype.match` finds it. */
  function FirstSeasonFrom(s: string, from: nat): (r: Option<nat>)
    ensures r.Some? ==>
      && from <= r.value && IsSeasonAt(s, r.value)
      && forall k :: from <= k < r.value ==> !IsSeasonAt(s, k)
    ensures r.None? ==> forall k :: from <= k ==> !IsSeasonAt(s, k)
    decreases |s| - from
  {
    if from + 7 > |s| then None
    else if IsSeasonAt(s, from) then Some(from)
    else FirstSeasonFrom(s, from + 1)
  }

  /** `getDisplayClubName`: a name that contains "клуб" in any letter case and
      a season `YYYY/YY` becomes the season title with the first season found;
      every other name is shown as it is. */
  function DisplayClubName(clubName: string): (r: string)
    ensures Contains(ToLower(clubName), "клуб") && (exists i :: IsSeasonAt(clubName, i)) ==>
      exists i :: IsSeasonAt(clubName, i) && (forall k :: 0 <= k < i ==> !IsSeasonAt(clubName, k))
        && r == SeasonTitle + clubName[i..i + 7]
    ensures !(Contains(ToLower(clubName), "клуб") && exists i :: IsSeasonAt(clubName, i)) ==> r == clubName
  {
    var hasClub := Contains(ToLower(clubName), "клуб");
    var seasonMatch := FirstSeasonFrom(clubName, 0);
    if hasClub && seasonMatch.Some? then SeasonTitle + clubName[seasonMatch.value..seasonMatch.value + 7]
    else clubName
  }

  /** The title contains "клуб" whatever season follows it. */
  lemma TitleHasClub(season: string)
    ensures Contains(ToLower(SeasonTitle + season), "клуб")
  {
    var low := ToLower(SeasonTitle + season);
    assert low[14..18] == "клуб";
    assert OccursAt(low, "клуб", 14);
  }

  /** No season starts inside the title itself. */
  lemma NoSeasonInTitle(season: string, k: int)
    requires 0 <= k < |SeasonTitle|
    ensures !IsSeasonAt(SeasonTitle + season, k)
  {
    assert (SeasonTitle + season)[k] == SeasonTitle[k];
  }

  /** A title is shown as it is: the title contains "клуб" and its first
      season is the one it was made from. */
  lemma TitleShownAsIs(season: string)
    requires IsSeasonAt(season, 0) && |season| == 7
    ensures DisplayClubName(SeasonTitle + season) == SeasonTitle + season
  {
    var out := SeasonTitle + season;
    var n := |SeasonTitle|;
    TitleHasClub(season);
    assert out[n..] == season;
    assert out[n..n + 4] == season[0..4] && out[n + 5..n + 7] == season[5..7];
    assert IsSeasonAt(out, n);
    forall k | 0 <= k < n
      ensures !IsSeasonAt(out, k)
    {
      NoSeasonInTitle(season, k);
    }
    var first := FirstSeasonFrom(out, 0);
    assert first == Some(n);
    assert out[n..n + 7] == season;
  }

  /** Applying the rule to its own output changes nothing. */
  lemma DisplayClubNameIdempotent(clubName: string)
    ensures DisplayClubName(DisplayClubName(clubName)) == DisplayClubName(clubName)
  {
    var out := DisplayClubName(clubName);
    if out != clubName {
      var i :| IsSeasonAt(clubName, i) && out == SeasonTitle + clubName[i..i + 7];
      var season := clubName[i..i + 7];
      assert season[0..4] == clubName[i..i + 4] && season[5..7] == clubName[i + 5..i + 7];
      assert IsSeasonAt(season, 0);
      TitleShownAsIs(season);
    }
  }

  /** Upper-casing keeps digits and the slash, and makes no other character
      one of them. */
  lemma UpperKeepsSeasonChar(c: char)
    ensures IsDigit(CharToUpper(c)) <==> IsDigit(c)
    ensures CharToUpper(c) == '/' <==> c == '/'
    ensures IsDigit(c) || c == '/' ==> CharToUpper(c) == c
  {
  }

  /** Upper-casing moves no season: digits and the slash are kept, and no
      letter becomes a digit or a slash. */
  lemma SeasonIgnoresCase(s: string, k: int)
    ensures IsSeasonAt(ToUpper(s), k) <==> IsSeasonAt(s, k)
    ensures IsSeasonAt(s, k) ==> ToUpper(s)[k..k + 7] == s[k..k + 7]
  {
    var u := ToUpper(s);
    if 0 <= k && k + 7 <= |s| {
      var ua, sa, ub, sb := u[k..k + 4], s[k..k + 4], u[k + 5..k + 7], s[k + 5..k + 7];
      forall m | 0 <= m < 4
        ensures IsDigit(ua[m]) <==> IsDigit(sa[m])
      {
        assert ua[m] == CharToUpper(s[k + m]) && sa[m] == s[k + m];
        UpperKeepsSeasonChar(s[k + m]);
      }
      forall m | 0 <= m < 2
        ensures IsDigit(ub[m]) <==> IsDigit(sb[m])
      {
        assert ub[m] == CharToUpper(s[k + 5 + m]) && sb[m] == s[k + 5 + m];
        UpperKeepsSeasonChar(s[k + 5 + m]);
      }
      UpperKeepsSeasonChar(s[k + 4]);
      assert AllDigits(ua) <==> AllDigits(sa);
      assert AllDigits(ub) <==> AllDigits(sb);
      if IsSeasonAt(s, k) {
        forall m | k <= m < k + 7
          ensures u[m] == s[m]
        {
          if m < k + 4 {
            assert IsDigit(sa[m - k]);
          } else if m > k + 4 {
            assert IsDigit(sb[m - k - 5]);
          }
          UpperKeepsSeasonChar(s[m]);
        }
        assert u[k..k + 7] == s[k..k + 7];
      }
    }
  }

  /** The leftmost season is found at the same place in the upper-cased name. */
  lemma {:induction false} FirstSeasonIgnoresCase(s: string, from: nat)
    ensures FirstSeasonFrom(ToUpper(s), from) == FirstSeasonFrom(s, from)
    decreases |s| - from
  {
    if from + 7 <= |s| {
      SeasonIgnoresCase(s, from);
      FirstSeasonIgnoresCase(s, from + 1);
    }
  }

  /** The club rule ignores letter case: the upper-cased name gets the same
      title when the rule applies, and is otherwise shown as it is. */
  lemma DisplayClubNameIgnoresCase(clubName: string)
    ensures var fires := Contains(ToLower(clubName), "клуб") && FirstSeasonFrom(clubName, 0).Some?;
      DisplayClubName(ToUpper(clubName)) == if fires then DisplayClubName(clubName) else ToUpper(clubName)
  {
    ToLowerIgnoresCase(clubName);
    FirstSeasonIgnoresCase(clubName, 0);
    var m := FirstSeasonFrom(clubName, 0);
    if m.Some? {
      SeasonIgnoresCase(clubName, m.value);
    }
  }

  // ---------------------------------------------------------------------------
  // Page state
  // ---------------------------------------------------------------------------

  /** `hasGameData`: there is a category, and some category list holds a player. */
  function HasGameData(categories: seq<Category>, categorized: CategorizedPlayers): (r: bool)
    ensures r <==> |categories| > 0 && exists name :: name in categorized && |categorized[name]| > 0
  {
    |categories| > 0 && |categorized.Keys| > 0 && exists name :: name in categorized && |categorized[name]| > 0
  }

  /** A fresh game has nothing to show, and a placed player always gives the
      page something to show. */
  lemma GameDataAfterPlay(s: GameEngine.GameState, name: string)
    ensures !HasGameData(GameEngine.ResetGame().categories, GameEngine.ResetGame().categorizedPlayers)
    ensures var r := GameEngine.AddPlayerToCategory(s, name);
      GameEngine.Placed(r.result) ==> HasGameData(r.state.categories, r.state.categorizedPlayers)
  {
    var r := GameEngine.AddPlayerToCategory(s, name);
    if GameEngine.Placed(r.result) {
      var c := GameEngine.FindCategory(s.categories, name);
      assert c.Some?;
      assert |s.categories| > 0;
      assert name in r.state.categorizedPlayers && |r.state.categorizedPlayers[name]| > 0;
    }
  }

  /** The parts of `UserShareStats` the page reads. */
  datatype ShareStats = ShareStats(canUse: bool, dailyRemaining: int)

  /** `isShareAvailable`: offered until the stats arrive, then only while the
      server allows it and shares remain today. */
  function IsShareAvailable(stats: Option<ShareStats>): (ok: bool)
    ensures stats.None? ==> ok
    ensures stats.Some? ==> (ok <==> stats.value.canUse && stats.value.dailyRemaining > 0)
  {
    stats.None? || (stats.value.canUse && stats.value.dailyRemaining > 0)
  }

  // ---------------------------------------------------------------------------
  // Wait before the next share
  // ---------------------------------------------------------------------------

  const MsPerMinute: int := 60000

  /** `Math.ceil(diffMs / 60000)` for a positive difference: the fewest whole
      minutes that cover it. */
  function CeilMinutes(diffMs: int): (m: nat)
    requires diffMs > 0
    ensures m >= 1 && (m - 1) * MsPerMinute < diffMs <= m * MsPerMinute
  {
    (diffMs + MsPerMinute - 1) / MsPerMinute
  }

  /** Only one count of minutes covers a given difference. */
  lemma CeilMinutesUnique(diffMs: int, m: int)
    requires diffMs > 0
    requires (m - 1) * MsPerMinute < diffMs <= m * MsPerMinute
    ensures m == CeilMinutes(diffMs)
  {
  }

  const AvailableNow: string := "Доступно сейчас"

  /** `formatTimeUntilAvailable` at time `now`, with the next allowed time in
      milliseconds; `None` stands for a missing value. */
  function FormatTimeUntilAvailable(nextAvailable: Option<int>, now: int): (text: string)
    ensures nextAvailable.None? ==> text == ""
    ensures nextAvailable.Some? && nextAvailable.value - now <= 0 ==> text == AvailableNow
    ensures nextAvailable.Some? && nextAvailable.value - now > 0 ==>
      text == "через " + NatToString(CeilMinutes(nextAvailable.value - now)) + " мин"
  {
    match nextAvailable
    case None => ""
    case Some(t) =>
      var diffMs := t - now;
      if diffMs <= 0 then AvailableNow
      else "через " + NatToString(CeilMinutes(diffMs)) + " мин"
  }

  /** The number printed in a wait text is the count of minutes that covers the
      wait: read back, it is at least one, the wait fits in it, and one minute
      fewer would not cover the wait. */
  lemma WaitTextMinutes(nextAvailable: int, now: int)
    requires nextAvailable - now > 0
    ensures var text := FormatTimeUntilAvailable(Some(nextAvailable), now);
      var m := DecimalValue(text[6..|text| - 4]);
      && 10 < |text|
      && m >= 1 && (m - 1) * MsPerMinute < nextAvailable - now <= m * MsPerMinute
  {
    var m := CeilMinutes(nextAvailable - now);
    var digits := NatToString(m);
    var text := FormatTimeUntilAvailable(Some(nextAvailable), now);
    assert text == "через " + digits + " мин";
    assert text[6..|text| - 4] == digits;
    DecimalRoundTrip(m);
  }

  // ---------------------------------------------------------------------------
  // The result as ids
  // ---------------------------------------------------------------------------

  /** The `forEach` that builds `categorizedPlayerIds`: the same category names,
      and under each the ids of its players in the same order. */
  method CategorizedPlayerIds(categorized: CategorizedPlayers) returns (ids: map<string, seq<string>>)
    ensures ids.Keys == categorized.Keys
    ensures forall name :: name in ids ==>
      |ids[name]| == |categorized[name]|
      && forall i :: 0 <= i < |ids[name]| ==> ids[name][i] == categorized[name][i].id
  {
    ids := map[];
    var pending := categorized.Keys;
    while pending != {}
      invariant pending <= categorized.Keys
      invariant ids.Keys == categorized.Keys - pending
      invariant forall name :: name in ids ==> ids[name] == Ids(categorized[name])
      decreases pending
    {
      var name :| name in pending;
      ids := ids[name := Ids(categorized[name])];
      pending := pending - {name};
    }
  }

  // ---------------------------------------------------------------------------
  // What the page shows
  // ---------------------------------------------------------------------------

  /** `displayData`: the scratch copy while positions are edited, the committed
      lists otherwise. */
  function DisplayData(s: GameEngine.GameState): (d: CategorizedPlayers)
    ensures s.isEditingPositions ==> d == s.tempCategorizedPlayers
    ensures !s.isEditingPositions ==> d == s.categorizedPlayers
  {
    if s.isEditingPositions then s.tempCategorizedPlayers else s.categorizedPlayers
  }

  /** After entering or leaving the editor the committed lists are shown:
      entering starts from a fresh copy of them, and leaving discards the
      unsaved edits. Saving keeps on screen the edited lists that were shown. */
  lemma DisplayAcrossEditing(s: GameEngine.GameState)
    ensures DisplayData(GameEngine.EnterEditMode(s)) == s.categorizedPlayers
    ensures DisplayData(GameEngine.ExitEditMode(s)) == s.categorizedPlayers
    ensures s.isEditingPositions ==> DisplayData(GameEngine.SavePositionChanges(s)) == DisplayData(s)
  {
  }
}
