/** The game store as an object: one field per store field, and one method per
    action. Each action reads the fields (`get()`), works out the new values
    in local variables as the action does, and writes them back through
    `Set`, the store's partial-state merge. Every method is proved to land on
    the state the matching GameEngine transition computes and to keep the
    store invariant. */
module GameStore {
  import opened Util
  import opened Types
  import Categories
  import GameEngine
  import GameProperties

  class GameStore {
    var currentPlayerIndex: int
    var categorizedPlayers: CategorizedPlayers
    var playerQueue: seq<Player>
    var processedPlayersCount: int
    var categories: seq<Category>
    var isLoading: bool
    var error: Option<string>
    var maxPlayersToProcess: int
    var gameHistory: seq<GameEngine.HistoryAction>
    var canGoBack: bool
    var isEditingPositions: bool
    var selectedPlayers: seq<GameEngine.SelectedPlayer>
    var tempCategorizedPlayers: CategorizedPlayers
    var hasCompletedInitialStep: bool

    /** `get()`: the store's fields as one value. */
    function State(): GameEngine.GameState
      reads this
    {
      GameEngine.GameState(currentPlayerIndex, categorizedPlayers, playerQueue, processedPlayersCount,
                           categories, isLoading, error, maxPlayersToProcess, gameHistory, canGoBack,
                           isEditingPositions, selectedPlayers, tempCategorizedPlayers, hasCompletedInitialStep)
    }

    /** The engine invariant on the store's fields. */
    ghost predicate Valid()
      reads this
    {
      GameEngine.Invariant(State())
    }

    /** The store as created from `initialState`. */
    constructor ()
      ensures Valid()
      ensures State() == GameEngine.InitialState()
    {
      currentPlayerIndex := 0;
      categorizedPlayers := map[];
      playerQueue := [];
      processedPlayersCount := 0;
      categories := [];
      isLoading := false;
      error := None;
      maxPlayersToProcess := 0;
      gameHistory := [];
      canGoBack := false;
      isEditingPositions := false;
      selectedPlayers := [];
      tempCategorizedPlayers := map[];
      hasCompletedInitialStep := false;
    }

    /** `set(partial)`: the caller passes the current state with the fields of
        the partial state replaced; every field takes its value from `next`. */
    method Set(next: GameEngine.GameState)
      modifies this
      ensures State() == next
    {
      SetSortFields(next);
      SetEditorFields(next);
    }

    /** The first half of `Set`: the fields the sort engine and the loader write. */
    method SetSortFields(next: GameEngine.GameState)
      modifies this`currentPlayerIndex, this`categorizedPlayers, this`playerQueue,
               this`processedPlayersCount, this`categories, this`isLoading, this`error
      ensures currentPlayerIndex == next.currentPlayerIndex && categorizedPlayers == next.categorizedPlayers
      ensures playerQueue == next.playerQueue && processedPlayersCount == next.processedPlayersCount
      ensures categories == next.categories && isLoading == next.isLoading && error == next.error
    {
      currentPlayerIndex := next.currentPlayerIndex;
      categorizedPlayers := next.categorizedPlayers;
      playerQueue := next.playerQueue;
      processedPlayersCount := next.processedPlayersCount;
      categories := next.categories;
      isLoading := next.isLoading;
      error := next.error;
    }

    /** The second half of `Set`: the remaining counters, history and editor fields. */
    method SetEditorFields(next: GameEngine.GameState)
      modifies this`maxPlayersToProcess, this`gameHistory, this`canGoBack, this`isEditingPositions,
               this`selectedPlayers, this`tempCategorizedPlayers, this`hasCompletedInitialStep
      ensures maxPlayersToProcess == next.maxPlayersToProcess && gameHistory == next.gameHistory
      ensures canGoBack == next.canGoBack && isEditingPositions == next.isEditingPositions
      ensures selectedPlayers == next.selectedPlayers && tempCategorizedPlayers == next.tempCategorizedPlayers
      ensures hasCompletedInitialStep == next.hasCompletedInitialStep
    {
      maxPlayersToProcess := next.maxPlayersToProcess;
      gameHistory := next.gameHistory;
      canGoBack := next.canGoBack;
      isEditingPositions := next.isEditingPositions;
      selectedPlayers := next.selectedPlayers;
      tempCategorizedPlayers := next.tempCategorizedPlayers;
      hasCompletedInitialStep := next.hasCompletedInitialStep;
    }

    method AddPlayerToCategory(name: string) returns (result: GameEngine.AddPlayerResult)
      requires Valid()
      modifies this
      ensures Valid()
      ensures State() == GameEngine.AddPlayerToCategory(old(State()), name).state
      ensures result == GameEngine.AddPlayerToCategory(old(State()), name).result
    {
      GameProperties.AddKeepsInvariant(State(), name);
      result := AddPlayerToCategoryBody(name);
    }

    /** The steps of `AddPlayerToCategory` on any field values; the method above adds the invariant. */
    method AddPlayerToCategoryBody(name: string) returns (result: GameEngine.AddPlayerResult)
      modifies this
      ensures State() == GameEngine.AddPlayerToCategory(old(State()), name).state
      ensures result == GameEngine.AddPlayerToCategory(old(State()), name).result
    {
      var state := State();
      var category := GameEngine.FindCategory(state.categories, name);
      if category.None? {
        return GameEngine.CategoryNotFound;
      }
      var currentCategoryPlayers := PlayersIn(state.categorizedPlayers, name);
      if |currentCategoryPlayers| >= category.value.slots {
        return GameEngine.CategoryFull;
      }
      if !(0 <= state.currentPlayerIndex < |state.playerQueue|) {
        return GameEngine.PlayerNotFound;
      }
      var playerToAdd := state.playerQueue[state.currentPlayerIndex];
      var updatedCategorizedPlayers := state.categorizedPlayers[name := currentCategoryPlayers + [playerToAdd]];
      var newProcessedCount := state.processedPlayersCount + 1;
      var newCurrentIndex := state.currentPlayerIndex + 1;
      Set(state.(categorizedPlayers := updatedCategorizedPlayers,
                 currentPlayerIndex := newCurrentIndex,
                 processedPlayersCount := newProcessedCount,
                 gameHistory := state.gameHistory + [GameEngine.Placement(playerToAdd, name)],
                 canGoBack := newCurrentIndex > 0));
      if newProcessedCount >= state.maxPlayersToProcess {
        return GameEngine.GameFinished;
      }
      return GameEngine.Success;
    }

    method ReplacePlayerInCategory(name: string, playerToReplace: Player) returns (result: GameEngine.AddPlayerResult)
      requires Valid()
      modifies this
      ensures Valid()
      ensures State() == GameEngine.ReplacePlayerInCategory(old(State()), name, playerToReplace).state
      ensures result == GameEngine.ReplacePlayerInCategory(old(State()), name, playerToReplace).result
    {
      var state := State();
      if !(0 <= state.currentPlayerIndex < |state.playerQueue|) {
        return GameEngine.PlayerNotFound;
      }
      var currentPlayer := state.playerQueue[state.currentPlayerIndex];
      var categoryPlayers := PlayersIn(state.categorizedPlayers, name);
      var updatedCategoryPlayers := GameEngine.ReplaceById(categoryPlayers, playerToReplace.id, currentPlayer);
      var updatedQueue := state.playerQueue + [playerToReplace];
      var newCurrentIndex := state.currentPlayerIndex + 1;
      Set(state.(categorizedPlayers := state.categorizedPlayers[name := updatedCategoryPlayers],
                 playerQueue := updatedQueue,
                 currentPlayerIndex := newCurrentIndex,
                 gameHistory := state.gameHistory + [GameEngine.Replacement(currentPlayer, name, playerToReplace)],
                 canGoBack := newCurrentIndex > 0));
      GameProperties.ReplaceKeepsInvariant(state, name, playerToReplace);
      if state.processedPlayersCount >= state.maxPlayersToProcess {
        return GameEngine.GameFinished;
      }
      return GameEngine.Success;
    }

    method ResetGame()
      modifies this
      ensures Valid()
      ensures State() == GameEngine.ResetGame()
    {
      var cats := Categories.LocalCategories();
      Set(GameEngine.InitialState().(categories := cats,
                                     categorizedPlayers := GameEngine.EmptyLists(cats),
                                     gameHistory := [],
                                     canGoBack := false));
      GameProperties.ResetEstablishesInvariant();
    }

    /** `initializeGame`; `fetched` is what the player fetch delivered, `None` when it threw. */
    method InitializeGame(fetched: Option<seq<Player>>)
      requires Valid()
      modifies this
      ensures Valid()
      ensures State() == GameEngine.InitializeGame(old(State()), fetched)
    {
      ghost var before := State();
      Set(State().(isLoading := true, error := None));
      var state := State();
      match fetched {
        case Some(players) =>
          var cats := Categories.LocalCategories();
          var emptyCategorizedPlayers := GameEngine.EmptyLists(cats);
          Set(state.(categories := cats,
                     playerQueue := players,
                     categorizedPlayers := emptyCategorizedPlayers,
                     currentPlayerIndex := 0,
                     processedPlayersCount := 0,
                     maxPlayersToProcess := |players|,
                     isLoading := false,
                     gameHistory := [],
                     canGoBack := false,
                     hasCompletedInitialStep := false));
        case None =>
          Set(state.(error := Some(GameEngine.LoadErrorMessage), isLoading := false));
      }
      GameProperties.InitializeKeepsInvariant(before, fetched);
    }

    method GoBackToPreviousPlayer() returns (ok: bool)
      requires Valid()
      modifies this
      ensures Valid()
      ensures State() == GameEngine.GoBackToPreviousPlayer(old(State())).state
      ensures ok == GameEngine.GoBackToPreviousPlayer(old(State())).ok
    {
      GameProperties.GoBackKeepsInvariant(State());
      ok := GoBackToPreviousPlayerBody();
    }

    /** The steps of `GoBackToPreviousPlayer` on any field values; the method above adds the invariant. */
    method GoBackToPreviousPlayerBody() returns (ok: bool)
      modifies this
      ensures State() == GameEngine.GoBackToPreviousPlayer(old(State())).state
      ensures ok == GameEngine.GoBackToPreviousPlayer(old(State())).ok
    {
      var state := State();
      if |state.gameHistory| == 0 || !state.canGoBack {
        return false;
      }
      var lastAction := state.gameHistory[|state.gameHistory| - 1];
      var categoryPlayers := PlayersIn(state.categorizedPlayers, lastAction.categoryName);
      var updatedCategoryPlayers: seq<Player>;
      var updatedPlayerQueue := state.playerQueue;
      var updatedProcessedCount := state.processedPlayersCount;
      match lastAction {
        case Replacement(player, _, replacedPlayer) =>
          updatedCategoryPlayers := GameEngine.ReplaceById(categoryPlayers, player.id, replacedPlayer);
          updatedPlayerQueue := GameEngine.DropLast(state.playerQueue);
        case Placement(player, _) =>
          updatedCategoryPlayers := GameEngine.RemoveById(categoryPlayers, player.id);
          updatedProcessedCount := state.processedPlayersCount - 1;
      }
      var newCurrentIndex := state.currentPlayerIndex - 1;
      Set(state.(categorizedPlayers := state.categorizedPlayers[lastAction.categoryName := updatedCategoryPlayers],
                 playerQueue := updatedPlayerQueue,
                 currentPlayerIndex := newCurrentIndex,
                 processedPlayersCount := updatedProcessedCount,
                 gameHistory := state.gameHistory[..|state.gameHistory| - 1],
                 canGoBack := newCurrentIndex > 0));
      return true;
    }

    method EnterEditMode()
      requires Valid()
      modifies this
      ensures Valid()
      ensures State() == GameEngine.EnterEditMode(old(State()))
    {
      var state := State();
      Set(state.(isEditingPositions := true, selectedPlayers := [],
                 tempCategorizedPlayers := state.categorizedPlayers));
      GameProperties.EditModeKeepsInvariant(state);
    }

    method ExitEditMode()
      requires Valid()
      modifies this
      ensures Valid()
      ensures State() == GameEngine.ExitEditMode(old(State()))
    {
      var state := State();
      Set(state.(isEditingPositions := false, selectedPlayers := [], tempCategorizedPlayers := map[]));
      GameProperties.EditModeKeepsInvariant(state);
    }

    method SelectPlayerForSwap(player: Player, categoryName: string)
      requires Valid()
      modifies this
      ensures Valid()
      ensures State() == GameEngine.SelectPlayerForSwap(old(State()), player, categoryName)
    {
      var state := State();
      if GameEngine.IsSelected(state.selectedPlayers, player.id, categoryName) {
        Set(state.(selectedPlayers := GameEngine.Deselect(state.selectedPlayers, player.id, categoryName)));
      } else if |state.selectedPlayers| < 2 {
        Set(state.(selectedPlayers := state.selectedPlayers + [GameEngine.SelectedPlayer(player, categoryName)]));
      }
      GameProperties.SelectKeepsInvariant(state, player, categoryName);
    }

    /** Exchanges the two selected entries on fresh array copies of the
        scratch lists and stores the copies back. */
    method SwapSelectedPlayers() returns (ok: bool)
      requires Valid()
      modifies this
      ensures Valid()
      ensures State() == GameEngine.SwapSelectedPlayers(old(State())).state
      ensures ok == GameEngine.SwapSelectedPlayers(old(State())).ok
    {
      GameProperties.SwapKeepsInvariant(State());
      ok := SwapSelectedPlayersBody();
    }

    /** The steps of `SwapSelectedPlayers` on any field values; the method above adds the invariant. */
    method SwapSelectedPlayersBody() returns (ok: bool)
      modifies this
      ensures State() == GameEngine.SwapSelectedPlayers(old(State())).state
      ensures ok == GameEngine.SwapSelectedPlayers(old(State())).ok
    {
      var state := State();
      if |state.selectedPlayers| != 2 {
        return false;
      }
      var first := state.selectedPlayers[0];
      var second := state.selectedPlayers[1];
      var newTempCategories := state.tempCategorizedPlayers;
      var firstCategoryPlayers := PlayersIn(newTempCategories, first.categoryName);
      var secondCategoryPlayers := PlayersIn(newTempCategories, second.categoryName);
      var firstPlayerIndex := GameEngine.FindIndexById(firstCategoryPlayers, first.player.id);
      var secondPlayerIndex := GameEngine.FindIndexById(secondCategoryPlayers, second.player.id);
      if firstPlayerIndex == -1 || secondPlayerIndex == -1 {
        return false;
      }
      newTempCategories := SwapInCopies(newTempCategories, first, second, firstPlayerIndex, secondPlayerIndex);
      Set(state.(tempCategorizedPlayers := newTempCategories, selectedPlayers := []));
      return true;
    }

    method SavePositionChanges()
      requires Valid()
      modifies this
      ensures Valid()
      ensures State() == GameEngine.SavePositionChanges(old(State()))
    {
      var state := State();
      Set(state.(categorizedPlayers := state.tempCategorizedPlayers, isEditingPositions := false,
                 selectedPlayers := [], tempCategorizedPlayers := map[]));
      GameProperties.EditModeKeepsInvariant(state);
    }

    method CompleteInitialStep()
      requires Valid()
      modifies this
      ensures Valid()
      ensures State() == GameEngine.CompleteInitialStep(old(State()))
    {
      Set(State().(hasCompletedInitialStep := true));
      GameProperties.EditModeKeepsInvariant(old(State()));
    }
  }

  /** The exchange itself on array copies of the two scratch lists: within one
      list the two entries trade places, across two lists each slot receives
      the other selected record. */
  method SwapInCopies(temp: CategorizedPlayers, first: GameEngine.SelectedPlayer, second: GameEngine.SelectedPlayer,
                      i: nat, j: nat) returns (newTemp: CategorizedPlayers)
    requires i < |PlayersIn(temp, first.categoryName)| && j < |PlayersIn(temp, second.categoryName)|
    ensures newTemp == GameEngine.SwappedLists(temp, first, second, i, j)
  {
    var firstCategoryPlayers := PlayersIn(temp, first.categoryName);
    var secondCategoryPlayers := PlayersIn(temp, second.categoryName);
    newTemp := temp;
    if first.categoryName == second.categoryName {
      var categoryPlayers := ExchangeInCopy(firstCategoryPlayers, i, j);
      assert categoryPlayers == firstCategoryPlayers[i := firstCategoryPlayers[j]][j := firstCategoryPlayers[i]];
      newTemp := newTemp[first.categoryName := categoryPlayers];
    } else {
      var firstCategoryUpdated := WriteInCopy(firstCategoryPlayers, i, second.player);
      var secondCategoryUpdated := WriteInCopy(secondCategoryPlayers, j, first.player);
      assert firstCategoryUpdated == firstCategoryPlayers[i := second.player];
      assert secondCategoryUpdated == secondCategoryPlayers[j := first.player];
      newTemp := newTemp[first.categoryName := firstCategoryUpdated][second.categoryName := secondCategoryUpdated];
    }
  }

  /** `[...list]`: a fresh array holding the list's players. */
  method CopyToArray(list: seq<Player>) returns (a: array<Player>)
    ensures fresh(a) && a[..] == list
  {
    a := new Player[|list|](k requires 0 <= k < |list| => list[k]);
  }

  /** The same-category swap: a copy of `list` with the entries at `i` and `j`
      exchanged through two temporaries, as `swapSelectedPlayers` does with two
      `const` bindings. */
  method ExchangeInCopy(list: seq<Player>, i: nat, j: nat) returns (r: seq<Player>)
    requires i < |list| && j < |list|
    ensures |r| == |list| && r[i] == list[j] && r[j] == list[i]
    ensures forall k :: 0 <= k < |list| && k != i && k != j ==> r[k] == list[k]
    ensures multiset(r) == multiset(list)
  {
    var a := CopyToArray(list);
    var atI := a[i];
    var atJ := a[j];
    a[i] := atJ;
    a[j] := atI;
    r := a[..];
    assert r == list[i := list[j]][j := list[i]];
  }

  /** The cross-category swap on one side: a copy of `list` with `p` written at `i`. */
  method WriteInCopy(list: seq<Player>, i: nat, p: Player) returns (r: seq<Player>)
    requires i < |list|
    ensures |r| == |list| && r[i] == p
    ensures forall k :: 0 <= k < |list| && k != i ==> r[k] == list[k]
  {
    var a := CopyToArray(list);
    a[i] := p;
    r := a[..];
  }
}
