/** No duplicate placement: a player id sits in at most one slot of the
    committed lists, and the players still to be sorted are distinct from one
    another and not yet placed. Loading a distinct roster and resetting
    establish it; placing, replacing a player of the named tier, the position
    editor and saving keep it. */
module GameUniqueness {
  import opened Util
  import opened Types
  import opened GameEngine

  /** Slot `i` of the list `name` holds a player with `id`. */
  ghost predicate IdAt(m: CategorizedPlayers, name: string, i: int, id: string) {
    name in m && 0 <= i < |m[name]| && m[name][i].id == id
  }

  /** Some list of `m` holds a player with `id`. */
  ghost predicate PlacedId(m: CategorizedPlayers, id: string) {
    exists name, i :: IdAt(m, name, i, id)
  }

  /** No id sits in two slots, within one list or across two. */
  ghost predicate NoDuplicates(m: CategorizedPlayers) {
    forall a, i, b, j, id :: IdAt(m, a, i, id) && IdAt(m, b, j, id) ==> a == b && i == j
  }

  /** The committed lists hold no id twice, and the queue from the cursor on
      holds distinct players none of whom is placed yet. */
  ghost predicate UniquePlacement(s: GameState) {
    && 0 <= s.currentPlayerIndex
    && NoDuplicates(s.categorizedPlayers)
    && (forall k, l :: s.currentPlayerIndex <= k < l < |s.playerQueue| ==>
          s.playerQueue[k].id != s.playerQueue[l].id)
    && (forall k :: s.currentPlayerIndex <= k < |s.playerQueue| ==>
          !PlacedId(s.categorizedPlayers, s.playerQueue[k].id))
  }

  /** While positions are edited the scratch copy holds no id twice and holds
      exactly the ids the committed lists hold. */
  ghost predicate ScratchMirrors(s: GameState) {
    && NoDuplicates(s.tempCategorizedPlayers)
    && forall id :: PlacedId(s.tempCategorizedPlayers, id) <==> PlacedId(s.categorizedPlayers, id)
  }

  // ---------------------------------------------------------------------------
  // Establishing the property
  // ---------------------------------------------------------------------------

  /** A reset game has nothing placed and nothing queued. */
  lemma ResetUnique()
    ensures UniquePlacement(ResetGame())
  {
    var s := ResetGame();
    forall name, i, id | IdAt(s.categorizedPlayers, name, i, id)
      ensures false
    {
    }
  }

  /** Loading a roster of distinct players starts a game without duplicates;
      a failed load keeps the property. */
  lemma InitializeUnique(s: GameState, fetched: Option<seq<Player>>)
    ensures fetched.Some? && IdsDistinct(fetched.value) ==> UniquePlacement(InitializeGame(s, fetched))
    ensures fetched.None? && UniquePlacement(s) ==> UniquePlacement(InitializeGame(s, fetched))
  {
    var r := InitializeGame(s, fetched);
    if fetched.Some? {
      forall name, i, id | IdAt(r.categorizedPlayers, name, i, id)
        ensures false
      {
      }
    }
  }

  // ---------------------------------------------------------------------------
  // Changing one slot
  // ---------------------------------------------------------------------------

  /** Filtering an id out of a list of distinct ids leaves them distinct. */
  lemma {:induction false} RemoveKeepsDistinct(list: seq<Player>, id: string)
    requires IdsDistinct(list)
    ensures IdsDistinct(RemoveById(list, id))
  {
    if |list| > 0 {
      var tail := list[1..];
      assert IdsDistinct(tail) by {
        forall k, l | 0 <= k < l < |tail|
          ensures tail[k].id != tail[l].id
        {
          assert tail[k] == list[k + 1] && tail[l] == list[l + 1];
        }
      }
      RemoveKeepsDistinct(tail, id);
      var rest := RemoveById(tail, id);
      forall q | q in rest
        ensures q.id != list[0].id
      {
        var k :| 0 <= k < |tail| && tail[k] == q;
        assert list[k + 1] == q;
      }
      var head := if list[0].id == id then [] else [list[0]];
      var r := head + rest;
      assert r == RemoveById(list, id);
      forall k, l | 0 <= k < l < |r|
        ensures r[k].id != r[l].id
      {
        if k < |head| {
          assert r[l] == rest[l - |head|];
        } else {
          assert r[k] == rest[k - |head|] && r[l] == rest[l - |head|];
        }
      }
    }
  }

  /** When `oldId` sits only in list `c`, every slot left after filtering it
      out of that list holds another id, which sat in the same list before. */
  lemma RemovedSlotOrigin(m: CategorizedPlayers, c: string, oldId: string, x: string, k: int, id: string)
      returns (k': int)
    requires NoDuplicates(m) && c in m && HasId(m[c], oldId)
    requires IdAt(m[c := RemoveById(m[c], oldId)], x, k, id)
    ensures id != oldId && IdAt(m, x, k', id) && (x != c ==> k' == k)
  {
    if x == c {
      var r := RemoveById(m[c], oldId);
      assert m[c := r][c] == r && r[k].id == id;
      assert r[k] in r;
      assert r[k] in m[c] && r[k].id != oldId;
      k' :| 0 <= k' < |m[c]| && m[c][k'] == r[k];
      assert IdAt(m, x, k', id);
    } else {
      k' := k;
      assert m[c := RemoveById(m[c], oldId)][x] == m[x];
      var t :| 0 <= t < |m[c]| && m[c][t].id == oldId;
      assert IdAt(m, c, t, oldId) && IdAt(m, x, k, id);
    }
  }

  /** Filtering a placed id out of its list unplaces exactly that id and
      keeps the lists free of duplicates. */
  lemma RemoveSlot(m: CategorizedPlayers, c: string, oldId: string)
    requires NoDuplicates(m) && HasId(PlayersIn(m, c), oldId)
    ensures c in m
    ensures var m2 := m[c := RemoveById(m[c], oldId)];
      && NoDuplicates(m2)
      && forall id :: PlacedId(m2, id) <==> PlacedId(m, id) && id != oldId
  {
    var list := m[c];
    var r := RemoveById(list, oldId);
    var m2 := m[c := r];
    assert IdsDistinct(list) by {
      forall k, l | 0 <= k < l < |list|
        ensures list[k].id != list[l].id
      {
        assert IdAt(m, c, k, list[k].id);
        assert IdAt(m, c, l, list[l].id);
      }
    }
    RemoveKeepsDistinct(list, oldId);
    forall x, k, y, n, id | IdAt(m2, x, k, id) && IdAt(m2, y, n, id)
      ensures x == y && k == n
    {
      var k' := RemovedSlotOrigin(m, c, oldId, x, k, id);
      var n' := RemovedSlotOrigin(m, c, oldId, y, n, id);
      if x == c && y == c {
        assert r[k].id == r[n].id;
      }
    }
    forall id
      ensures PlacedId(m2, id) <==> PlacedId(m, id) && id != oldId
    {
      if PlacedId(m2, id) {
        var x, k :| IdAt(m2, x, k, id);
        var k' := RemovedSlotOrigin(m, c, oldId, x, k, id);
      }
      if PlacedId(m, id) && id != oldId {
        var x, k :| IdAt(m, x, k, id);
        if x == c {
          assert list[k] in r;
          var k' :| 0 <= k' < |r| && r[k'] == list[k];
          assert IdAt(m2, c, k', id);
        } else {
          assert IdAt(m2, x, k, id);
        }
      }
    }
  }

  /** Putting an unplaced player into the slot of a placed id unplaces that
      id, places the newcomer and keeps the lists free of duplicates. */
  lemma ReplaceSlot(m: CategorizedPlayers, c: string, oldId: string, newcomer: Player)
    requires NoDuplicates(m) && HasId(PlayersIn(m, c), oldId) && !PlacedId(m, newcomer.id)
    ensures c in m
    ensures var m2 := m[c := ReplaceById(m[c], oldId, newcomer)];
      && NoDuplicates(m2)
      && forall id :: PlacedId(m2, id) <==> (PlacedId(m, id) && id != oldId) || id == newcomer.id
  {
    var list := m[c];
    var t :| 0 <= t < |list| && list[t].id == oldId;
    assert IdAt(m, c, t, oldId);
    var m2 := m[c := ReplaceById(list, oldId, newcomer)];
    forall a, i, id | IdAt(m2, a, i, id)
      ensures (IdAt(m, a, i, id) && id != oldId) || (a == c && i == t && id == newcomer.id)
    {
      if a == c {
        if list[i].id == oldId {
          assert IdAt(m, c, i, oldId);
        }
      } else {
        assert IdAt(m, a, i, id);
      }
    }
    assert IdAt(m2, c, t, newcomer.id);
    forall id | PlacedId(m, id) && id != oldId
      ensures PlacedId(m2, id)
    {
      var x, k :| IdAt(m, x, k, id);
      assert IdAt(m2, x, k, id);
    }
  }

  // ---------------------------------------------------------------------------
  // The sort engine keeps it
  // ---------------------------------------------------------------------------

  /** The last history entry agrees with the game: the cursor has just moved
      past the entry's player, who sits in the entry's tier, and a bumped
      player is the last one queued, at or after the cursor. */
  ghost predicate LastEntryMatches(s: GameState) {
    && |s.gameHistory| > 0
    && 1 <= s.currentPlayerIndex <= |s.playerQueue|
    && var last := s.gameHistory[|s.gameHistory| - 1];
       && s.playerQueue[s.currentPlayerIndex - 1].id == last.player.id
       && HasId(PlayersIn(s.categorizedPlayers, last.categoryName), last.player.id)
       && (last.Replacement? ==>
             && s.currentPlayerIndex < |s.playerQueue|
             && s.playerQueue[|s.playerQueue| - 1] == last.replacedPlayer)
  }

  /** Placing the current player keeps the property: the player was queued,
      so no list held its id, and it leaves the part of the queue still to
      be sorted. The new history entry agrees with the game. */
  lemma AddKeepsUnique(s: GameState, name: string)
    requires UniquePlacement(s)
    ensures UniquePlacement(AddPlayerToCategory(s, name).state)
    ensures Placed(AddPlayerToCategory(s, name).result) ==> LastEntryMatches(AddPlayerToCategory(s, name).state)
  {
    var r := AddPlayerToCategory(s, name);
    if Placed(r.result) {
      var p := CurrentPlayer(s).value;
      var cur := s.currentPlayerIndex;
      var q := s.playerQueue;
      var m := s.categorizedPlayers;
      var list := PlayersIn(m, name);
      var m2 := r.state.categorizedPlayers;
      assert m2 == m[name := list + [p]];
      assert !PlacedId(m, p.id);
      forall a, i, id | IdAt(m2, a, i, id)
        ensures IdAt(m, a, i, id) || (a == name && i == |list| && id == p.id)
      {
        if a == name && i < |list| {
          assert name in m && m2[a][i] == m[a][i];
        }
      }
      forall k | cur + 1 <= k < |q|
        ensures !PlacedId(m2, q[k].id)
      {
        assert q[k].id != q[cur].id;
        assert !PlacedId(m, q[k].id);
      }
      assert m2[name][|list|] == p;
    }
  }

  /** Replacing a player of the named tier keeps the property: the current
      player takes the bumped player's only slot, and the bumped player, no
      longer placed, joins the end of the queue. The new history entry agrees
      with the game. */
  lemma ReplaceKeepsUnique(s: GameState, name: string, toReplace: Player)
    requires UniquePlacement(s)
    requires HasId(PlayersIn(s.categorizedPlayers, name), toReplace.id)
    ensures UniquePlacement(ReplacePlayerInCategory(s, name, toReplace).state)
    ensures Placed(ReplacePlayerInCategory(s, name, toReplace).result) ==>
      LastEntryMatches(ReplacePlayerInCategory(s, name, toReplace).state)
  {
    var r := ReplacePlayerInCategory(s, name, toReplace);
    if Placed(r.result) {
      var p := CurrentPlayer(s).value;
      var cur := s.currentPlayerIndex;
      var q := s.playerQueue;
      var m := s.categorizedPlayers;
      assert !PlacedId(m, p.id);
      var t :| 0 <= t < |m[name]| && m[name][t].id == toReplace.id;
      assert IdAt(m, name, t, toReplace.id);
      ReplaceSlot(m, name, toReplace.id, p);
      var m2 := r.state.categorizedPlayers;
      assert m2 == m[name := ReplaceById(m[name], toReplace.id, p)];
      var q2 := r.state.playerQueue;
      assert q2 == q + [toReplace];
      forall k, l | cur + 1 <= k < l < |q2|
        ensures q2[k].id != q2[l].id
      {
        if l == |q| {
          assert !PlacedId(m, q[k].id);
        }
      }
      forall k | cur + 1 <= k < |q2|
        ensures !PlacedId(m2, q2[k].id)
      {
        if k < |q| {
          assert q[k].id != q[cur].id;
          assert !PlacedId(m, q[k].id);
        }
      }
      assert m2[name][t] == p;
    }
  }

  /** Undoing the last action keeps the property when that entry agrees with
      the game: a placed player leaves its list and rejoins the part of the
      queue still to be sorted; a bumped player takes its slot back and
      leaves the queue. */
  lemma GoBackKeepsUnique(s: GameState)
    requires UniquePlacement(s) && LastEntryMatches(s)
    ensures UniquePlacement(GoBackToPreviousPlayer(s).state)
  {
    var out := GoBackToPreviousPlayer(s);
    if out.ok {
      if s.gameHistory[|s.gameHistory| - 1].Placement? {
        UndoPlacementKeepsUnique(s);
      } else {
        UndoReplacementKeepsUnique(s);
      }
    }
  }

  /** The placement case of `GoBackKeepsUnique`. */
  lemma UndoPlacementKeepsUnique(s: GameState)
    requires UniquePlacement(s) && LastEntryMatches(s) && s.canGoBack
    requires s.gameHistory[|s.gameHistory| - 1].Placement?
    ensures UniquePlacement(GoBackToPreviousPlayer(s).state)
  {
    var r := GoBackToPreviousPlayer(s).state;
    var last := s.gameHistory[|s.gameHistory| - 1];
    var c, pid := last.categoryName, last.player.id;
    var cur := s.currentPlayerIndex;
    var q := s.playerQueue;
    var m := s.categorizedPlayers;
    var t :| 0 <= t < |PlayersIn(m, c)| && PlayersIn(m, c)[t].id == pid;
    assert IdAt(m, c, t, pid);
    RemoveSlot(m, c, pid);
    assert r.categorizedPlayers == m[c := RemoveById(m[c], pid)];
    assert r.playerQueue == q && r.currentPlayerIndex == cur - 1;
    forall k | cur <= k < |q|
      ensures q[k].id != pid
    {
      assert !PlacedId(m, q[k].id);
    }
  }

  /** The replacement case of `GoBackKeepsUnique`. */
  lemma UndoReplacementKeepsUnique(s: GameState)
    requires UniquePlacement(s) && LastEntryMatches(s) && s.canGoBack
    requires s.gameHistory[|s.gameHistory| - 1].Replacement?
    ensures UniquePlacement(GoBackToPreviousPlayer(s).state)
  {
    var r := GoBackToPreviousPlayer(s).state;
    var last := s.gameHistory[|s.gameHistory| - 1];
    var c, pid, b := last.categoryName, last.player.id, last.replacedPlayer;
    var cur := s.currentPlayerIndex;
    var q := s.playerQueue;
    var m := s.categorizedPlayers;
    var t :| 0 <= t < |PlayersIn(m, c)| && PlayersIn(m, c)[t].id == pid;
    assert IdAt(m, c, t, pid);
    assert q[|q| - 1] == b;
    assert !PlacedId(m, b.id);
    ReplaceSlot(m, c, pid, b);
    assert r.categorizedPlayers == m[c := ReplaceById(m[c], pid, b)];
    var q2 := q[..|q| - 1];
    assert r.playerQueue == q2 && r.currentPlayerIndex == cur - 1;
    forall k | cur <= k < |q2|
      ensures q2[k].id != pid && q2[k].id != b.id
    {
      assert !PlacedId(m, q[k].id);
      assert q[k].id != q[|q| - 1].id;
    }
  }

  /** Players A, B and C; A sits in "goat", B in "Хорош", and C is current. */
  function OtherTierGame(): GameState {
    var a, b, c := Player("1", "A", "", "1"), Player("2", "B", "", "1"), Player("3", "C", "", "1");
    GameState(2, map["goat" := [a], "Хорош" := [b]], [a, b, c], 0, [], false, None, 3,
              [], true, false, [], map[], false)
  }

  /** The game above has no duplicate placement. */
  lemma OtherTierGameUnique()
    ensures UniquePlacement(OtherTierGame())
  {
    var m := OtherTierGame().categorizedPlayers;
    forall x, i, id | IdAt(m, x, i, id)
      ensures (x == "goat" && i == 0 && id == "1") || (x == "Хорош" && i == 0 && id == "2")
    {
    }
  }

  /** The source does not check that the bumped player sits in the named tier.
      Bumping B, who sits in "Хорош", from "goat" leaves every list as it was,
      drops C and queues B again although B is still placed; sorting the
      queued B then places it a second time. */
  lemma ReplaceFromOtherTier()
    ensures var s := OtherTierGame();
      var s2 := ReplacePlayerInCategory(s, "goat", s.playerQueue[1]).state;
      && s2.categorizedPlayers == s.categorizedPlayers
      && s2.playerQueue == s.playerQueue + [s.playerQueue[1]] && s2.currentPlayerIndex == 3
      && !UniquePlacement(s2)
  {
    var s := OtherTierGame();
    var b := s.playerQueue[1];
    var s2 := ReplacePlayerInCategory(s, "goat", b).state;
    assert ReplaceById(s.categorizedPlayers["goat"], "2", s.playerQueue[2]) == s.categorizedPlayers["goat"];
    assert s2.categorizedPlayers == s.categorizedPlayers;
    assert IdAt(s2.categorizedPlayers, "Хорош", 0, "2");
    assert s2.playerQueue[3] == b;
  }

  // ---------------------------------------------------------------------------
  // The position editor keeps it
  // ---------------------------------------------------------------------------

  /** The editor actions leave the committed lists, the queue and the cursor
      alone, so they keep the property. */
  lemma EditorKeepsUnique(s: GameState, player: Player, name: string)
    requires UniquePlacement(s)
    ensures UniquePlacement(EnterEditMode(s))
    ensures UniquePlacement(ExitEditMode(s))
    ensures UniquePlacement(SelectPlayerForSwap(s, player, name))
    ensures UniquePlacement(SwapSelectedPlayers(s).state)
    ensures UniquePlacement(CompleteInitialStep(s))
  {
  }

  /** Entering the editor copies the committed lists into the scratch copy. */
  lemma EnterMirrors(s: GameState)
    requires NoDuplicates(s.categorizedPlayers)
    ensures ScratchMirrors(EnterEditMode(s))
  {
  }

  /** Selecting leaves both copies alone. */
  lemma SelectKeepsMirrors(s: GameState, player: Player, name: string)
    requires ScratchMirrors(s)
    ensures ScratchMirrors(SelectPlayerForSwap(s, player, name))
  {
  }

  /** The slot a swap exchanges with slot `(x, k)`: the two touched slots
      trade, every other slot is its own partner. */
  function Partner(x: string, k: int, a: string, i: int, b: string, j: int): (string, int) {
    if x == a && k == i then (b, j) else if x == b && k == j then (a, i) else (x, k)
  }

  /** Under a swap of slot `i` of list `a` with slot `j` of list `b`, every
      slot of the result holds the id its partner slot held before, and the
      other way round. */
  lemma SwapMovesIds(t: CategorizedPlayers, first: SelectedPlayer, second: SelectedPlayer, i: nat, j: nat)
    requires first.categoryName in t && second.categoryName in t
    requires i < |t[first.categoryName]| && j < |t[second.categoryName]|
    requires t[first.categoryName][i].id == first.player.id
    requires t[second.categoryName][j].id == second.player.id
    ensures var r := SwappedLists(t, first, second, i, j);
      var a, b := first.categoryName, second.categoryName;
      forall x, k, id :: IdAt(r, x, k, id) <==> IdAt(t, Partner(x, k, a, i, b, j).0, Partner(x, k, a, i, b, j).1, id)
  {
    var r := SwappedLists(t, first, second, i, j);
    var a, b := first.categoryName, second.categoryName;
    forall x, k, id
      ensures IdAt(r, x, k, id) <==> IdAt(t, Partner(x, k, a, i, b, j).0, Partner(x, k, a, i, b, j).1, id)
    {
      if x != a && x != b {
        if x in t {
          assert r[x] == t[x];
        }
      }
    }
  }

  /** A swap only exchanges the ids of two slots, so the scratch copy still
      holds no id twice and holds the same ids. */
  lemma SwapKeepsMirrors(s: GameState)
    requires ScratchMirrors(s)
    ensures ScratchMirrors(SwapSelectedPlayers(s).state)
  {
    var out := SwapSelectedPlayers(s);
    if out.ok {
      var t := s.tempCategorizedPlayers;
      var first, second := s.selectedPlayers[0], s.selectedPlayers[1];
      var a, b := first.categoryName, second.categoryName;
      var i := FindIndexById(PlayersIn(t, a), first.player.id);
      var j := FindIndexById(PlayersIn(t, b), second.player.id);
      var r := SwappedLists(t, first, second, i, j);
      assert out.state.tempCategorizedPlayers == r;
      SwapMovesIds(t, first, second, i, j);
      forall x, k, y, n, id | IdAt(r, x, k, id) && IdAt(r, y, n, id)
        ensures x == y && k == n
      {
        assert IdAt(t, Partner(x, k, a, i, b, j).0, Partner(x, k, a, i, b, j).1, id);
        assert IdAt(t, Partner(y, n, a, i, b, j).0, Partner(y, n, a, i, b, j).1, id);
      }
      forall id
        ensures PlacedId(r, id) <==> PlacedId(t, id)
      {
        if PlacedId(r, id) {
          var x, k :| IdAt(r, x, k, id);
          assert IdAt(t, Partner(x, k, a, i, b, j).0, Partner(x, k, a, i, b, j).1, id);
        }
        if PlacedId(t, id) {
          var x, k :| IdAt(t, x, k, id);
          var p := Partner(x, k, a, i, b, j);
          assert Partner(p.0, p.1, a, i, b, j) == (x, k);
          assert IdAt(r, p.0, p.1, id);
        }
      }
    }
  }

  /** Saving a scratch copy that mirrors the committed lists keeps the
      property. */
  lemma SaveKeepsUnique(s: GameState)
    requires UniquePlacement(s) && ScratchMirrors(s)
    ensures UniquePlacement(SavePositionChanges(s))
  {
  }
}
