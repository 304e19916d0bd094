/** What the game store's actions promise across calls: every action keeps the
    store invariant, an undo right after a placement or a replacement restores
    the whole state, a second toggle of the same selection undoes the first,
    and swapping the same two players back returns the scratch lists to their
    earlier arrangement. */
module GameProperties {
  import opened Util
  import opened Types
  import Categories
  import opened GameEngine

  // ---------------------------------------------------------------------------
  // Helpers about the history counters and capacity
  // ---------------------------------------------------------------------------

  /** Pushing one entry adds one to exactly the counter of its kind. */
  lemma {:induction false} CountsAppend(h: seq<HistoryAction>, a: HistoryAction)
    ensures CountPlacements(h + [a]) == CountPlacements(h) + (if a.Placement? then 1 else 0)
    ensures CountReplacements(h + [a]) == CountReplacements(h) + (if a.Replacement? then 1 else 0)
  {
    if |h| > 0 {
      assert (h + [a])[1..] == h[1..] + [a];
      CountsAppend(h[1..], a);
    }
  }

  lemma FitsAfterUpdate(cats: seq<Category>, m: CategorizedPlayers, name: string, list: seq<Player>)
    requires Fits(cats, m)
    requires FindCategory(cats, name).Some? ==> |list| <= FindCategory(cats, name).value.slots
    ensures Fits(cats, m[name := list])
  {
  }

  /** A found category's slot count is one of the table's, hence positive. */
  lemma FoundSlotsPositive(cats: seq<Category>, name: string)
    requires Categories.SlotsPositive(cats) && FindCategory(cats, name).Some?
    ensures FindCategory(cats, name).value.slots > 0
  {
    var c := FindCategory(cats, name).value;
    var k :| 0 <= k < |cats| && cats[k] == c;
  }

  /** Empty lists fit any table whose slot counts are positive. */
  lemma AllEmptyFits(cats: seq<Category>, m: CategorizedPlayers)
    requires AllEmpty(m) && Categories.SlotsPositive(cats)
    ensures Fits(cats, m)
  {
    forall name | name in m && FindCategory(cats, name).Some?
      ensures |m[name]| <= FindCategory(cats, name).value.slots
    {
      FoundSlotsPositive(cats, name);
    }
  }

  /** Under capacity and positive slots, the list a name finds (or `[]`) fits. */
  lemma ListFits(cats: seq<Category>, m: CategorizedPlayers, name: string)
    requires Fits(cats, m) && Categories.SlotsPositive(cats) && FindCategory(cats, name).Some?
    ensures |PlayersIn(m, name)| <= FindCategory(cats, name).value.slots
  {
    FoundSlotsPositive(cats, name);
  }

  /** In a reachable state the text `getCategoryFilled` shows for a known tier
      is two decimal numbers, and the count read back never exceeds the slots
      read back. */
  lemma FilledWithinSlots(s: GameState, name: string)
    requires Invariant(s) && FindCategory(s.categories, name).Some?
    ensures var slots := FindCategory(s.categories, name).value.slots;
      exists count: nat, total: nat ::
        && GetCategoryFilled(s, name) == NatToString(count) + " / " + NatToString(total)
        && DecimalValue(NatToString(count)) <= DecimalValue(NatToString(total)) == slots
  {
    var slots := FindCategory(s.categories, name).value.slots;
    var count := |PlayersIn(s.categorizedPlayers, name)|;
    FoundSlotsPositive(s.categories, name);
    ListFits(s.categories, s.categorizedPlayers, name);
    DecimalRoundTrip(count);
    DecimalRoundTrip(slots);
    assert GetCategoryFilled(s, name) == NatToString(count) + " / " + NatToString(slots);
  }

  // ---------------------------------------------------------------------------
  // Every action keeps the invariant
  // ---------------------------------------------------------------------------

  lemma InitialStateInvariant(s: GameState)
    requires s == InitialState()
    ensures Invariant(s)
  {
  }

  lemma ResetEstablishesInvariant()
    ensures Invariant(ResetGame())
  {
    var s := ResetGame();
    Categories.LocalTable();
    AllEmptyFits(s.categories, s.categorizedPlayers);
  }

  lemma InitializeKeepsInvariant(s: GameState, fetched: Util.Option<seq<Player>>)
    requires Invariant(s)
    ensures Invariant(InitializeGame(s, fetched))
  {
    var r := InitializeGame(s, fetched);
    if fetched.Some? {
      Categories.LocalTable();
      AllEmptyFits(r.categories, r.categorizedPlayers);
      if s.categories != Categories.LocalCategories() {
        AllEmptyFits(r.categories, r.tempCategorizedPlayers);
      }
    }
  }

  lemma AddKeepsInvariant(s: GameState, name: string)
    requires Invariant(s)
    ensures Invariant(AddPlayerToCategory(s, name).state)
  {
    var r := AddPlayerToCategory(s, name);
    if Placed(r.result) {
      var p := CurrentPlayer(s).value;
      CountsAppend(s.gameHistory, Placement(p, name));
      FitsAfterUpdate(s.categories, s.categorizedPlayers, name, r.state.categorizedPlayers[name]);
    }
  }

  lemma ReplaceKeepsInvariant(s: GameState, name: string, toReplace: Player)
    requires Invariant(s)
    ensures Invariant(ReplacePlayerInCategory(s, name, toReplace).state)
  {
    var r := ReplacePlayerInCategory(s, name, toReplace);
    if Placed(r.result) {
      var p := CurrentPlayer(s).value;
      CountsAppend(s.gameHistory, Replacement(p, name, toReplace));
      FitsAfterUpdate(s.categories, s.categorizedPlayers, name, r.state.categorizedPlayers[name]);
    }
  }

  /** Undo in a state where nothing was ever placed or queued only pops placements of nobody. */
  lemma GoBackKeepsUnstarted(s: GameState)
    requires Counters(s) && Unstarted(s)
    ensures Unstarted(GoBackToPreviousPlayer(s).state)
  {
    var r := GoBackToPreviousPlayer(s);
    if r.ok {
      var h := s.gameHistory;
      var last := h[|h| - 1];
      assert h == h[..|h| - 1] + [last];
      CountsAppend(h[..|h| - 1], last);
      assert last.Placement?;
      assert PlayersIn(s.categorizedPlayers, last.categoryName) == [];
    }
  }

  lemma GoBackKeepsCounters(s: GameState)
    requires Counters(s)
    ensures Counters(GoBackToPreviousPlayer(s).state)
  {
    var r := GoBackToPreviousPlayer(s);
    if r.ok {
      var h := s.gameHistory;
      var last := h[|h| - 1];
      assert h == h[..|h| - 1] + [last];
      CountsAppend(h[..|h| - 1], last);
    }
  }

  lemma GoBackKeepsCapacity(s: GameState)
    requires Capacity(s)
    ensures Capacity(GoBackToPreviousPlayer(s).state)
  {
    var r := GoBackToPreviousPlayer(s);
    if r.ok {
      var c := s.gameHistory[|s.gameHistory| - 1].categoryName;
      var newList := r.state.categorizedPlayers[c];
      assert |newList| <= |PlayersIn(s.categorizedPlayers, c)|;
      if FindCategory(s.categories, c).Some? {
        ListFits(s.categories, s.categorizedPlayers, c);
      }
      FitsAfterUpdate(s.categories, s.categorizedPlayers, c, newList);
    }
  }

  lemma GoBackKeepsInvariant(s: GameState)
    requires Invariant(s)
    ensures Invariant(GoBackToPreviousPlayer(s).state)
  {
    GoBackKeepsCounters(s);
    GoBackKeepsCapacity(s);
    if Unstarted(s) {
      GoBackKeepsUnstarted(s);
    }
  }

  lemma SelectKeepsInvariant(s: GameState, player: Player, name: string)
    requires Invariant(s)
    ensures Invariant(SelectPlayerForSwap(s, player, name))
  {
  }

  lemma SwapKeepsInvariant(s: GameState)
    requires Invariant(s)
    ensures Invariant(SwapSelectedPlayers(s).state)
  {
  }

  lemma EditModeKeepsInvariant(s: GameState)
    requires Invariant(s)
    ensures Invariant(EnterEditMode(s))
    ensures Invariant(ExitEditMode(s))
    ensures Invariant(SavePositionChanges(s))
    ensures Invariant(CompleteInitialStep(s))
  {
    EnterKeepsInvariant(s);
    ExitKeepsInvariant(s);
    SaveKeepsInvariant(s);
    CompleteKeepsInvariant(s);
  }

  lemma EnterKeepsInvariant(s: GameState)
    requires Invariant(s)
    ensures Invariant(EnterEditMode(s))
  {
  }

  lemma ExitKeepsInvariant(s: GameState)
    requires Invariant(s)
    ensures Invariant(ExitEditMode(s))
  {
  }

  lemma SaveKeepsInvariant(s: GameState)
    requires Invariant(s)
    ensures Invariant(SavePositionChanges(s))
  {
  }

  lemma CompleteKeepsInvariant(s: GameState)
    requires Invariant(s)
    ensures Invariant(CompleteInitialStep(s))
  {
  }

  // ---------------------------------------------------------------------------
  // Completion
  // ---------------------------------------------------------------------------

  /** A placement finishes the game exactly when the placements on the
      history reach the number of fetched players; a replacement never adds
      to that number. */
  lemma FinishedIffEnoughPlacements(s: GameState, name: string, toReplace: Player)
    requires Invariant(s)
    ensures var r := AddPlayerToCategory(s, name);
      Placed(r.result) ==>
        (r.result == GameFinished <==> CountPlacements(r.state.gameHistory) >= r.state.maxPlayersToProcess)
    ensures var r := ReplacePlayerInCategory(s, name, toReplace);
      Placed(r.result) ==>
        && CountPlacements(r.state.gameHistory) == CountPlacements(s.gameHistory)
        && (r.result == GameFinished <==> CountPlacements(r.state.gameHistory) >= r.state.maxPlayersToProcess)
  {
    if CurrentPlayer(s).Some? {
      var p := CurrentPlayer(s).value;
      CountsAppend(s.gameHistory, Placement(p, name));
      CountsAppend(s.gameHistory, Replacement(p, name, toReplace));
    }
  }

  // ---------------------------------------------------------------------------
  // Undo round trips
  // ---------------------------------------------------------------------------

  /** Filtering out the id of an appended player that was not already listed gives the list back. */
  lemma {:induction false} RemoveAppended(list: seq<Player>, p: Player)
    requires !HasId(list, p.id)
    ensures RemoveById(list + [p], p.id) == list
  {
    if |list| == 0 {
      assert RemoveById([p], p.id) == [] + RemoveById([], p.id);
    } else {
      assert (list + [p])[1..] == list[1..] + [p];
      assert !HasId(list[1..], p.id) by {
        forall k | 0 <= k < |list[1..]| ensures list[1..][k].id != p.id {
          assert list[1..][k] == list[k + 1];
        }
      }
      RemoveAppended(list[1..], p);
    }
  }

  /** The only parts of the invariant an undo round trip relies on. */
  predicate CursorTracked(s: GameState) {
    s.currentPlayerIndex >= 0 && s.canGoBack == (s.currentPlayerIndex > 0)
  }

  lemma {:induction false} PopPushed<T>(h: seq<T>, a: T)
    ensures (h + [a])[|h|] == a && (h + [a])[..|h|] == h
  {
  }

  /** Placing a player whose id is not yet in the target list, then going
      back, restores every field of the store. */
  lemma AddThenGoBack(s: GameState, name: string)
    requires CursorTracked(s)
    requires Placed(AddPlayerToCategory(s, name).result)
    requires name in s.categorizedPlayers
    requires !HasId(s.categorizedPlayers[name], CurrentPlayer(s).value.id)
    ensures GoBackToPreviousPlayer(AddPlayerToCategory(s, name).state) == Outcome(s, true)
  {
    var p := CurrentPlayer(s).value;
    var list := s.categorizedPlayers[name];
    var mid := AddPlayerToCategory(s, name).state;
    PopPushed(s.gameHistory, Placement(p, name));
    RemoveAppended(list, p);
    var back := GoBackToPreviousPlayer(mid);
    assert back.ok;
    assert back.state.categorizedPlayers == s.categorizedPlayers;
    assert back.state == s;
  }

  /** Replacing, then going back, restores every field of the store when the
      incoming player's id was not in that list and every entry with the bumped
      id is the bumped record itself. */
  lemma ReplaceThenGoBack(s: GameState, name: string, toReplace: Player)
    requires CursorTracked(s)
    requires CurrentPlayer(s).Some?
    requires name in s.categorizedPlayers
    requires !HasId(s.categorizedPlayers[name], CurrentPlayer(s).value.id)
    requires forall k :: 0 <= k < |s.categorizedPlayers[name]| && s.categorizedPlayers[name][k].id == toReplace.id ==>
               s.categorizedPlayers[name][k] == toReplace
    ensures GoBackToPreviousPlayer(ReplacePlayerInCategory(s, name, toReplace).state) == Outcome(s, true)
  {
    var p := CurrentPlayer(s).value;
    var list := s.categorizedPlayers[name];
    var mid := ReplacePlayerInCategory(s, name, toReplace).state;
    PopPushed(s.gameHistory, Replacement(p, name, toReplace));
    PopPushed(s.playerQueue, toReplace);
    var restored := ReplaceById(ReplaceById(list, toReplace.id, p), p.id, toReplace);
    assert restored == list by {
      forall k | 0 <= k < |list| ensures restored[k] == list[k] {
        assert list[k].id != p.id;
      }
    }
    var back := GoBackToPreviousPlayer(mid);
    assert back.ok;
    assert back.state.categorizedPlayers == s.categorizedPlayers;
    assert back.state == s;
  }

  // ---------------------------------------------------------------------------
  // Position editor
  // ---------------------------------------------------------------------------

  lemma {:induction false} DeselectAppended(sel: seq<SelectedPlayer>, x: SelectedPlayer)
    requires !IsSelected(sel, x.player.id, x.categoryName)
    ensures Deselect(sel + [x], x.player.id, x.categoryName) == sel
  {
    if |sel| == 0 {
      assert Deselect([x], x.player.id, x.categoryName) == [] + Deselect([], x.player.id, x.categoryName);
    } else {
      assert (sel + [x])[1..] == sel[1..] + [x];
      assert !Matches(sel[0], x.player.id, x.categoryName);
      assert !IsSelected(sel[1..], x.player.id, x.categoryName) by {
        forall k | 0 <= k < |sel[1..]| ensures !Matches(sel[1..][k], x.player.id, x.categoryName) {
          assert sel[1..][k] == sel[k + 1];
        }
      }
      DeselectAppended(sel[1..], x);
    }
  }

  /** Selecting a pair that is not selected while fewer than two are, and then
      selecting it again, leaves the store as it was. */
  lemma SelectTwiceRestores(s: GameState, player: Player, name: string)
    requires !IsSelected(s.selectedPlayers, player.id, name) && |s.selectedPlayers| < 2
    ensures SelectPlayerForSwap(SelectPlayerForSwap(s, player, name), player, name) == s
  {
    var x := SelectedPlayer(player, name);
    var mid := SelectPlayerForSwap(s, player, name);
    assert Matches(mid.selectedPlayers[|s.selectedPlayers|], player.id, name);
    DeselectAppended(s.selectedPlayers, x);
  }

  /** `findIndex` returns `k` when `k` holds the id and nothing before it does. */
  lemma FirstIndexAt(list: seq<Player>, id: string, k: nat)
    requires k < |list| && list[k].id == id
    requires forall l :: 0 <= l < k ==> list[l].id != id
    ensures FindIndexById(list, id) == k
  {
    assert HasId(list, id);
  }

  /** Selecting two different pairs from an empty selection lists them in order. */
  lemma SelectPair(s: GameState, p1: Player, c1: string, p2: Player, c2: string)
    requires s.selectedPlayers == []
    requires p1.id != p2.id
    ensures SelectPlayerForSwap(SelectPlayerForSwap(s, p1, c1), p2, c2) ==
      s.(selectedPlayers := [SelectedPlayer(p1, c1), SelectedPlayer(p2, c2)])
  {
    var a := SelectPlayerForSwap(s, p1, c1);
    assert a.selectedPlayers == [SelectedPlayer(p1, c1)];
    assert !IsSelected(a.selectedPlayers, p2.id, c2);
  }

  /** Within one list: after trading places, each id is first found where the
      other one was, and trading those places back restores the list. */
  lemma SwapWithinTwice(list: seq<Player>, id1: string, id2: string, i: nat, j: nat)
    requires i < |list| && j < |list| && list[i].id == id1 && list[j].id == id2 && id1 != id2
    requires IdsDistinct(list)
    ensures var swapped := list[i := list[j]][j := list[i]];
      && FindIndexById(swapped, id1) == j
      && FindIndexById(swapped, id2) == i
      && swapped[j := swapped[i]][i := swapped[j]] == list
  {
    var swapped := list[i := list[j]][j := list[i]];
    FirstIndexAt(swapped, id1, j);
    FirstIndexAt(swapped, id2, i);
  }

  /** Across two lists: each incoming record is found where it was written,
      and writing the original records back restores both lists. */
  lemma SwapAcrossTwice(firstList: seq<Player>, secondList: seq<Player>, p1: Player, p2: Player, i: nat, j: nat)
    requires i < |firstList| && j < |secondList| && firstList[i] == p1 && secondList[j] == p2
    requires !HasId(secondList, p1.id) && !HasId(firstList, p2.id)
    ensures FindIndexById(secondList[j := p1], p1.id) == j
    ensures FindIndexById(firstList[i := p2], p2.id) == i
    ensures secondList[j := p1][j := p2] == secondList && firstList[i := p2][i := p1] == firstList
  {
    FirstIndexAt(secondList[j := p1], p1.id, j);
    FirstIndexAt(firstList[i := p2], p2.id, i);
  }

  /** The map-level round trip when both selected players sit in one list. */
  lemma SwappedWithinTwice(t: CategorizedPlayers, first: SelectedPlayer, second: SelectedPlayer, i: nat, j: nat)
    requires first.categoryName == second.categoryName
    requires var list := PlayersIn(t, first.categoryName);
      && i < |list| && j < |list|
      && list[i].id == first.player.id && list[j].id == second.player.id
      && first.player.id != second.player.id && IdsDistinct(list)
    ensures var t1 := SwappedLists(t, first, second, i, j);
      var again1 := SelectedPlayer(first.player, second.categoryName);
      var again2 := SelectedPlayer(second.player, first.categoryName);
      && FindIndexById(PlayersIn(t1, second.categoryName), first.player.id) == j
      && FindIndexById(PlayersIn(t1, first.categoryName), second.player.id) == i
      && SwappedLists(t1, again1, again2, j, i) == t
  {
    var list := PlayersIn(t, first.categoryName);
    assert first.categoryName in t;
    SwapWithinTwice(list, first.player.id, second.player.id, i, j);
  }

  /** The map-level round trip when the selected players sit in two lists. */
  lemma SwappedAcrossTwice(t: CategorizedPlayers, first: SelectedPlayer, second: SelectedPlayer, i: nat, j: nat)
    requires first.categoryName != second.categoryName
    requires var firstList := PlayersIn(t, first.categoryName);
      var secondList := PlayersIn(t, second.categoryName);
      && i < |firstList| && j < |secondList|
      && firstList[i] == first.player && secondList[j] == second.player
      && !HasId(secondList, first.player.id) && !HasId(firstList, second.player.id)
    ensures var t1 := SwappedLists(t, first, second, i, j);
      var again1 := SelectedPlayer(first.player, second.categoryName);
      var again2 := SelectedPlayer(second.player, first.categoryName);
      && FindIndexById(PlayersIn(t1, second.categoryName), first.player.id) == j
      && FindIndexById(PlayersIn(t1, first.categoryName), second.player.id) == i
      && SwappedLists(t1, again1, again2, j, i) == t
  {
    var firstList, secondList := PlayersIn(t, first.categoryName), PlayersIn(t, second.categoryName);
    assert first.categoryName in t && second.categoryName in t;
    SwapAcrossTwice(firstList, secondList, first.player, second.player, i, j);
  }

  /** After a successful swap, selecting the same two players where they now
      sit and swapping again restores the scratch lists. Ids within each
      touched list are distinct, the two players differ, and across two lists
      neither id occurs in the other list and each list holds the selected
      record itself. */
  lemma SwapTwiceRestores(s: GameState)
    requires |s.selectedPlayers| == 2
    requires SwapSelectedPlayers(s).ok
    requires var first, second := s.selectedPlayers[0], s.selectedPlayers[1];
      var firstList := PlayersIn(s.tempCategorizedPlayers, first.categoryName);
      var secondList := PlayersIn(s.tempCategorizedPlayers, second.categoryName);
      && first.player.id != second.player.id
      && IdsDistinct(firstList) && IdsDistinct(secondList)
      && (first.categoryName != second.categoryName ==>
            && !HasId(secondList, first.player.id) && !HasId(firstList, second.player.id)
            && (forall k :: 0 <= k < |firstList| && firstList[k].id == first.player.id ==> firstList[k] == first.player)
            && (forall k :: 0 <= k < |secondList| && secondList[k].id == second.player.id ==> secondList[k] == second.player))
    ensures var first, second := s.selectedPlayers[0], s.selectedPlayers[1];
      var s1 := SwapSelectedPlayers(s).state;
      var s2 := SelectPlayerForSwap(SelectPlayerForSwap(s1, first.player, second.categoryName),
                                    second.player, first.categoryName);
      && SwapSelectedPlayers(s2).ok
      && SwapSelectedPlayers(s2).state.tempCategorizedPlayers == s.tempCategorizedPlayers
  {
    var first, second := s.selectedPlayers[0], s.selectedPlayers[1];
    var t := s.tempCategorizedPlayers;
    var i := FindIndexById(PlayersIn(t, first.categoryName), first.player.id);
    var j := FindIndexById(PlayersIn(t, second.categoryName), second.player.id);
    var s1 := SwapSelectedPlayers(s).state;
    assert s1 == s.(tempCategorizedPlayers := SwappedLists(t, first, second, i, j), selectedPlayers := []);
    if first.categoryName == second.categoryName {
      SwappedWithinTwice(t, first, second, i, j);
    } else {
      SwappedAcrossTwice(t, first, second, i, j);
    }
    SelectPair(s1, first.player, second.categoryName, second.player, first.categoryName);
  }

  /** Writing a record into a slot writes its id into the same slot of the ids. */
  lemma IdsUpdate(list: seq<Player>, i: nat, p: Player)
    requires i < |list|
    ensures Ids(list[i := p]) == Ids(list)[i := p.id]
  {
  }

  /** A successful swap moves no player in or out of the scratch copy: every
      untouched list is kept; within one list the same players stay, only
      reordered; across two lists the ids they hold between them are kept,
      because each slot receives a record with the id found in the other. */
  lemma SwapKeepsPlacedPlayers(s: GameState)
    requires SwapSelectedPlayers(s).ok
    ensures var t := s.tempCategorizedPlayers;
      var r := SwapSelectedPlayers(s).state.tempCategorizedPlayers;
      var a, b := s.selectedPlayers[0].categoryName, s.selectedPlayers[1].categoryName;
      && r.Keys == t.Keys && a in t && b in t
      && (forall name :: name in t && name != a && name != b ==> r[name] == t[name])
      && (a == b ==> multiset(r[a]) == multiset(t[a]))
      && (a != b ==> multiset(Ids(r[a])) + multiset(Ids(r[b])) == multiset(Ids(t[a])) + multiset(Ids(t[b])))
  {
    var t := s.tempCategorizedPlayers;
    var first, second := s.selectedPlayers[0], s.selectedPlayers[1];
    var a, b := first.categoryName, second.categoryName;
    var i := FindIndexById(PlayersIn(t, a), first.player.id);
    var j := FindIndexById(PlayersIn(t, b), second.player.id);
    if a == b {
      var l := t[a];
      assert SwappedLists(t, first, second, i, j)[a] == l[i := l[j]][j := l[i]];
    } else {
      var r := SwappedLists(t, first, second, i, j);
      assert r[a] == t[a][i := second.player] && r[b] == t[b][j := first.player];
      IdsUpdate(t[a], i, second.player);
      IdsUpdate(t[b], j, first.player);
    }
  }
}
