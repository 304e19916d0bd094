/** The tier-list game as transitions over one value: the state the game store
    holds, the reducers its actions apply, the invariants they keep and the
    single-step undo that reverses them. The store class in GameStore performs
    each of these transitions field by field. */
module GameEngine {
  import opened Util
  import opened Types
  import Categories

  /** What placing or replacing a player reports to the page. */
  datatype AddPlayerResult =
    | Success
    | CategoryNotFound
    | CategoryFull
    | PlayerNotFound
    | GameFinished

  /** One decision on the history stack. Only a replacement remembers the player it bumped. */
  datatype HistoryAction =
    | Placement(player: Player, categoryName: string)
    | Replacement(player: Player, categoryName: string, replacedPlayer: Player)

  /** A player picked in the position editor, with the category it was picked in. */
  datatype SelectedPlayer = SelectedPlayer(player: Player, categoryName: string)

  /** Every field of the store except the derived progress percentage. Counters
      are JavaScript numbers, hence `int`; the invariant below keeps them >= 0. */
  datatype GameState = GameState(
    currentPlayerIndex: int,
    categorizedPlayers: CategorizedPlayers,
    playerQueue: seq<Player>,
    processedPlayersCount: int,
    categories: seq<Category>,
    isLoading: bool,
    error: Option<string>,
    maxPlayersToProcess: int,
    gameHistory: seq<HistoryAction>,
    canGoBack: bool,
    isEditingPositions: bool,
    selectedPlayers: seq<SelectedPlayer>,
    tempCategorizedPlayers: CategorizedPlayers,
    hasCompletedInitialStep: bool)

  /** The new state and the result of placing or replacing a player. */
  datatype Step = Step(state: GameState, result: AddPlayerResult)

  /** The new state and the boolean an undo or a swap returns. */
  datatype Outcome = Outcome(state: GameState, ok: bool)

  const LoadErrorMessage: string :=
    "Произошла ошибка при загрузке данных. Проверьте соединение с сервером."

  predicate Placed(r: AddPlayerResult) {
    r == Success || r == GameFinished
  }

  // ---------------------------------------------------------------------------
  // Lookups
  // ---------------------------------------------------------------------------

  /** `categories.find(cat => cat.name === name)`: the first category with that name. */
  function FindCategory(cats: seq<Category>, name: string): (r: Option<Category>)
    ensures r.None? ==> forall k :: 0 <= k < |cats| ==> cats[k].name != name
    ensures r.Some? ==>
      && r.value.name == name
      && exists k :: 0 <= k < |cats| && cats[k] == r.value && forall l :: 0 <= l < k ==> cats[l].name != name
  {
    if |cats| == 0 then None
    else if cats[0].name == name then Some(cats[0])
    else FindCategory(cats[1..], name)
  }

  predicate HasId(list: seq<Player>, id: string) {
    exists k | 0 <= k < |list| :: list[k].id == id
  }

  /** No two entries of `list` share an id. */
  ghost predicate IdsDistinct(list: seq<Player>) {
    forall k, l :: 0 <= k < l < |list| ==> list[k].id != list[l].id
  }

  /** `list.findIndex(p => p.id === id)`: the first index with that id, or -1. */
  function FindIndexById(list: seq<Player>, id: string): (r: int)
    ensures -1 <= r < |list|
    ensures r == -1 <==> !HasId(list, id)
    ensures 0 <= r ==> list[r].id == id && forall k :: 0 <= k < r ==> list[k].id != id
  {
    if |list| == 0 then -1
    else if list[0].id == id then 0
    else
      var r := FindIndexById(list[1..], id);
      if r == -1 then -1 else r + 1
  }

  /** `playerQueue[currentPlayerIndex]`, undefined outside the queue. */
  function CurrentPlayer(s: GameState): (p: Option<Player>)
    ensures p.Some? <==> 0 <= s.currentPlayerIndex < |s.playerQueue|
    ensures p.Some? ==> p.value == s.playerQueue[s.currentPlayerIndex]
  {
    if 0 <= s.currentPlayerIndex < |s.playerQueue| then Some(s.playerQueue[s.currentPlayerIndex])
    else None
  }

  /** `list.filter(p => p.id !== id)`. */
  function RemoveById(list: seq<Player>, id: string): (r: seq<Player>)
    ensures |r| <= |list| && !HasId(r, id)
    ensures forall p :: p in r <==> p in list && p.id != id
  {
    if |list| == 0 then []
    else (if list[0].id == id then [] else [list[0]]) + RemoveById(list[1..], id)
  }

  /** `list.map(p => p.id === id ? newcomer : p)`: every entry with that id becomes `newcomer`. */
  function ReplaceById(list: seq<Player>, id: string, newcomer: Player): seq<Player> {
    seq(|list|, k requires 0 <= k < |list| => if list[k].id == id then newcomer else list[k])
  }

  /** `slice(0, -1)`: the sequence without its last element (empty stays empty). */
  function DropLast<T>(q: seq<T>): seq<T> {
    if |q| == 0 then [] else q[..|q| - 1]
  }

  function CountPlacements(h: seq<HistoryAction>): (n: nat)
    ensures n <= |h|
  {
    if |h| == 0 then 0
    else (if h[0].Placement? then 1 else 0) + CountPlacements(h[1..])
  }

  function CountReplacements(h: seq<HistoryAction>): (n: nat)
    ensures n <= |h|
  {
    if |h| == 0 then 0
    else (if h[0].Replacement? then 1 else 0) + CountReplacements(h[1..])
  }

  /** `Object.fromEntries(cats.map(cat => [cat.name, []]))`. */
  function EmptyLists(cats: seq<Category>): (m: CategorizedPlayers)
    ensures forall name :: name in m <==> FindCategory(cats, name).Some?
    ensures forall name :: name in m ==> m[name] == []
  {
    map k | 0 <= k < |cats| :: cats[k].name := []
  }

  // ---------------------------------------------------------------------------
  // Invariants
  // ---------------------------------------------------------------------------

  /** Capacity: no list is longer than the slots of the category its name finds. */
  ghost predicate Fits(cats: seq<Category>, m: CategorizedPlayers) {
    forall name :: name in m && FindCategory(cats, name).Some? ==>
      |m[name]| <= FindCategory(cats, name).value.slots
  }

  ghost predicate AllEmpty(m: CategorizedPlayers) {
    forall name :: name in m ==> m[name] == []
  }

  /** The state before any game was loaded: nothing placed and nothing queued. */
  ghost predicate Unstarted(s: GameState) {
    AllEmpty(s.categorizedPlayers) && AllEmpty(s.tempCategorizedPlayers) && s.playerQueue == []
  }

  /** The bookkeeping of the sort: one history entry per step of the cursor,
      the processed count equal to the placements on the history, the queue
      grown by exactly the replacements, and `canGoBack` tracking the cursor. */
  ghost predicate Counters(s: GameState) {
    && 0 <= s.currentPlayerIndex == |s.gameHistory|
    && s.processedPlayersCount == CountPlacements(s.gameHistory)
    && 0 <= s.maxPlayersToProcess
    && |s.playerQueue| - s.maxPlayersToProcess == CountReplacements(s.gameHistory)
    && s.canGoBack == (s.currentPlayerIndex > 0)
  }

  /** Positive slot counts, and capacity in the committed and the scratch lists. */
  ghost predicate Capacity(s: GameState) {
    && Categories.SlotsPositive(s.categories)
    && Fits(s.categories, s.categorizedPlayers)
    && Fits(s.categories, s.tempCategorizedPlayers)
  }

  /** The local table is loaded unless nothing was ever placed or queued. */
  ghost predicate TableLoaded(s: GameState) {
    s.categories == Categories.LocalCategories() || Unstarted(s)
  }

  /** What every reachable state satisfies: capacity, the table loaded, the
      counters above, and at most two selected. */
  ghost predicate Invariant(s: GameState) {
    && Capacity(s)
    && TableLoaded(s)
    && Counters(s)
    && |s.selectedPlayers| <= 2
  }

  /** The fields neither the sort engine nor the position editor touches. */
  predicate SameSession(a: GameState, b: GameState) {
    && a.categories == b.categories
    && a.maxPlayersToProcess == b.maxPlayersToProcess
    && a.isLoading == b.isLoading
    && a.error == b.error
    && a.hasCompletedInitialStep == b.hasCompletedInitialStep
  }

  // ---------------------------------------------------------------------------
  // Session lifecycle
  // ---------------------------------------------------------------------------

  /** `initialState` of the store. */
  function InitialState(): (s: GameState)
    ensures Unstarted(s)
    ensures s.categories == [] && s.maxPlayersToProcess == 0 && !s.canGoBack
    ensures CurrentPlayer(s).None?
  {
    GameState(0, map[], [], 0, [], false, None, 0, [], false, false, [], map[], false)
  }

  /** `resetGame`: the initial state with the local category set and an empty
      list under each of its names. */
  function ResetGame(): (s: GameState)
    ensures s.categories == Categories.LocalCategories()
    ensures forall name :: name in s.categorizedPlayers <==> FindCategory(s.categories, name).Some?
    ensures AllEmpty(s.categorizedPlayers)
    ensures s.playerQueue == [] && s.gameHistory == [] && s.currentPlayerIndex == 0
    ensures CurrentPlayer(s).None?
  {
    var cats := Categories.LocalCategories();
    GameState(0, EmptyLists(cats), [], 0, cats, false, None, 0, [], false, false, [], map[], false)
  }

  /** `initializeGame` after its fetch: `None` when the fetch threw. The loading
      flag and error were first set to true and null; a failure then records the
      message, a success loads the players as the queue and empties every list. */
  function InitializeGame(s: GameState, fetched: Option<seq<Player>>): (r: GameState)
    ensures !r.isLoading
    ensures fetched.None? ==> r == s.(isLoading := false, error := Some(LoadErrorMessage))
    ensures fetched.Some? ==>
      && r.error.None?
      && r.playerQueue == fetched.value
      && r.maxPlayersToProcess == |fetched.value|
      && r.categories == Categories.LocalCategories()
      && r.categorizedPlayers == EmptyLists(Categories.LocalCategories())
      && r.currentPlayerIndex == 0 && r.processedPlayersCount == 0
      && r.gameHistory == [] && !r.canGoBack && !r.hasCompletedInitialStep
      && r.isEditingPositions == s.isEditingPositions
      && r.selectedPlayers == s.selectedPlayers
      && r.tempCategorizedPlayers == s.tempCategorizedPlayers
  {
    var loading := s.(isLoading := true, error := None);
    match fetched
    case None => loading.(error := Some(LoadErrorMessage), isLoading := false)
    case Some(players) =>
      loading.(categories := Categories.LocalCategories(),
               playerQueue := players,
               categorizedPlayers := EmptyLists(Categories.LocalCategories()),
               currentPlayerIndex := 0,
               processedPlayersCount := 0,
               maxPlayersToProcess := |players|,
               isLoading := false,
               gameHistory := [],
               canGoBack := false,
               hasCompletedInitialStep := false)
  }

  function CompleteInitialStep(s: GameState): (r: GameState)
    ensures r.hasCompletedInitialStep
    ensures r.(hasCompletedInitialStep := s.hasCompletedInitialStep) == s
  {
    s.(hasCompletedInitialStep := true)
  }

  /** `getCategoryFilled`: "count / slots" for a known category, "0 / 0" otherwise. */
  function GetCategoryFilled(s: GameState, name: string): (r: string)
    ensures FindCategory(s.categories, name).None? ==> r == "0 / 0"
    ensures FindCategory(s.categories, name).Some? ==>
      r == NatToString(|PlayersIn(s.categorizedPlayers, name)|) + " / "
           + IntToString(FindCategory(s.categories, name).value.slots)
  {
    match FindCategory(s.categories, name)
    case None => "0 / 0"
    case Some(cat) =>
      NatToString(|PlayersIn(s.categorizedPlayers, name)|) + " / " + IntToString(cat.slots)
  }

  // ---------------------------------------------------------------------------
  // Sort engine
  // ---------------------------------------------------------------------------

  /** `addPlayerToCategory`. Checks, in this order, that the category exists,
      that its list is below capacity and that a player is under the cursor; a
      failed check changes nothing. Otherwise the current player goes to the
      end of that one list, cursor and processed count go up by one, a
      placement is pushed, and the game is finished iff the new count reaches
      the maximum. */
  function AddPlayerToCategory(s: GameState, name: string): (r: Step)
    ensures r.result == CategoryNotFound <==> FindCategory(s.categories, name).None?
    ensures r.result == CategoryFull <==>
      FindCategory(s.categories, name).Some?
      && |PlayersIn(s.categorizedPlayers, name)| >= FindCategory(s.categories, name).value.slots
    ensures r.result == PlayerNotFound <==>
      FindCategory(s.categories, name).Some?
      && |PlayersIn(s.categorizedPlayers, name)| < FindCategory(s.categories, name).value.slots
      && CurrentPlayer(s).None?
    ensures !Placed(r.result) ==> r.state == s
    ensures Placed(r.result) ==>
      var p := CurrentPlayer(s).value;
      && r.state.categorizedPlayers == s.categorizedPlayers[name := PlayersIn(s.categorizedPlayers, name) + [p]]
      && |r.state.categorizedPlayers[name]| <= FindCategory(s.categories, name).value.slots
      && r.state.currentPlayerIndex == s.currentPlayerIndex + 1
      && r.state.processedPlayersCount == s.processedPlayersCount + 1
      && r.state.gameHistory == s.gameHistory + [Placement(p, name)]
      && r.state.playerQueue == s.playerQueue
      && SameSession(r.state, s)
      && (r.result == GameFinished <==> r.state.processedPlayersCount >= s.maxPlayersToProcess)
  {
    match FindCategory(s.categories, name)
    case None => Step(s, CategoryNotFound)
    case Some(category) =>
      var list := PlayersIn(s.categorizedPlayers, name);
      if |list| >= category.slots then Step(s, CategoryFull)
      else
        match CurrentPlayer(s)
        case None => Step(s, PlayerNotFound)
        case Some(p) =>
          var newCount := s.processedPlayersCount + 1;
          var newIndex := s.currentPlayerIndex + 1;
          var next := s.(categorizedPlayers := s.categorizedPlayers[name := list + [p]],
                         currentPlayerIndex := newIndex,
                         processedPlayersCount := newCount,
                         gameHistory := s.gameHistory + [Placement(p, name)],
                         canGoBack := newIndex > 0);
          Step(next, if newCount >= s.maxPlayersToProcess then GameFinished else Success)
  }

  /** `replacePlayerInCategory`. Without a player under the cursor nothing
      changes. Otherwise every entry of that list with the bumped player's id
      becomes the current player in place, the bumped player goes to the tail
      of the queue, the cursor advances, the processed count stays, a
      replacement is pushed, and the game is finished iff the unchanged count
      already reaches the maximum. The category is not looked up. */
  function ReplacePlayerInCategory(s: GameState, name: string, toReplace: Player): (r: Step)
    ensures r.result == PlayerNotFound <==> CurrentPlayer(s).None?
    ensures r.result == PlayerNotFound ==> r.state == s
    ensures r.result != CategoryNotFound && r.result != CategoryFull
    ensures Placed(r.result) ==>
      var p := CurrentPlayer(s).value;
      && r.state.categorizedPlayers ==
           s.categorizedPlayers[name := ReplaceById(PlayersIn(s.categorizedPlayers, name), toReplace.id, p)]
      && |r.state.categorizedPlayers[name]| == |PlayersIn(s.categorizedPlayers, name)|
      && r.state.playerQueue == s.playerQueue + [toReplace]
      && r.state.currentPlayerIndex == s.currentPlayerIndex + 1
      && r.state.processedPlayersCount == s.processedPlayersCount
      && r.state.gameHistory == s.gameHistory + [Replacement(p, name, toReplace)]
      && SameSession(r.state, s)
      && (r.result == GameFinished <==> s.processedPlayersCount >= s.maxPlayersToProcess)
  {
    match CurrentPlayer(s)
    case None => Step(s, PlayerNotFound)
    case Some(p) =>
      var updated := ReplaceById(PlayersIn(s.categorizedPlayers, name), toReplace.id, p);
      var newIndex := s.currentPlayerIndex + 1;
      var next := s.(categorizedPlayers := s.categorizedPlayers[name := updated],
                     playerQueue := s.playerQueue + [toReplace],
                     currentPlayerIndex := newIndex,
                     gameHistory := s.gameHistory + [Replacement(p, name, toReplace)],
                     canGoBack := newIndex > 0);
      Step(next, if s.processedPlayersCount >= s.maxPlayersToProcess then GameFinished else Success)
  }

  /** `goBackToPreviousPlayer`: refuses, changing nothing, when the history is
      empty or `canGoBack` is false. Otherwise pops exactly the last entry: a
      placement is filtered out of its list by id and uncounted; a replacement
      puts the bumped player back where the current one sits and drops the
      queue's tail. The cursor steps back by one. */
  function GoBackToPreviousPlayer(s: GameState): (r: Outcome)
    ensures r.ok <==> |s.gameHistory| > 0 && s.canGoBack
    ensures !r.ok ==> r.state == s
    ensures r.ok ==>
      var last := s.gameHistory[|s.gameHistory| - 1];
      var list := PlayersIn(s.categorizedPlayers, last.categoryName);
      && r.state.gameHistory == s.gameHistory[..|s.gameHistory| - 1]
      && r.state.currentPlayerIndex == s.currentPlayerIndex - 1
      && r.state.canGoBack == (s.currentPlayerIndex - 1 > 0)
      && SameSession(r.state, s)
      && (last.Placement? ==>
            && r.state.categorizedPlayers == s.categorizedPlayers[last.categoryName := RemoveById(list, last.player.id)]
            && r.state.processedPlayersCount == s.processedPlayersCount - 1
            && r.state.playerQueue == s.playerQueue)
      && (last.Replacement? ==>
            && r.state.categorizedPlayers ==
                 s.categorizedPlayers[last.categoryName := ReplaceById(list, last.player.id, last.replacedPlayer)]
            && r.state.processedPlayersCount == s.processedPlayersCount
            && r.state.playerQueue == DropLast(s.playerQueue))
  {
    if |s.gameHistory| == 0 || !s.canGoBack then Outcome(s, false)
    else
      var last := s.gameHistory[|s.gameHistory| - 1];
      var list := PlayersIn(s.categorizedPlayers, last.categoryName);
      var newIndex := s.currentPlayerIndex - 1;
      var next := s.(currentPlayerIndex := newIndex,
                     gameHistory := s.gameHistory[..|s.gameHistory| - 1],
                     canGoBack := newIndex > 0);
      match last
      case Replacement(p, c, bumped) =>
        Outcome(next.(categorizedPlayers := s.categorizedPlayers[c := ReplaceById(list, p.id, bumped)],
                      playerQueue := DropLast(s.playerQueue)), true)
      case Placement(p, c) =>
        Outcome(next.(categorizedPlayers := s.categorizedPlayers[c := RemoveById(list, p.id)],
                      processedPlayersCount := s.processedPlayersCount - 1), true)
  }

  // ---------------------------------------------------------------------------
  // Position editor
  // ---------------------------------------------------------------------------

  /** `enterEditMode`: the scratch copy starts as the committed lists. */
  function EnterEditMode(s: GameState): (r: GameState)
    ensures r.isEditingPositions && r.selectedPlayers == []
    ensures r.tempCategorizedPlayers == s.categorizedPlayers
    ensures r.categorizedPlayers == s.categorizedPlayers
  {
    s.(isEditingPositions := true, selectedPlayers := [], tempCategorizedPlayers := s.categorizedPlayers)
  }

  /** `exitEditMode`: the scratch copy is discarded, the committed lists stay. */
  function ExitEditMode(s: GameState): (r: GameState)
    ensures !r.isEditingPositions && r.selectedPlayers == [] && r.tempCategorizedPlayers == map[]
    ensures r.categorizedPlayers == s.categorizedPlayers
  {
    s.(isEditingPositions := false, selectedPlayers := [], tempCategorizedPlayers := map[])
  }

  /** `savePositionChanges`: the scratch copy becomes the committed lists. */
  function SavePositionChanges(s: GameState): (r: GameState)
    ensures !r.isEditingPositions && r.selectedPlayers == [] && r.tempCategorizedPlayers == map[]
    ensures r.categorizedPlayers == s.tempCategorizedPlayers
  {
    s.(categorizedPlayers := s.tempCategorizedPlayers, isEditingPositions := false,
       selectedPlayers := [], tempCategorizedPlayers := map[])
  }

  predicate Matches(sp: SelectedPlayer, id: string, name: string) {
    sp.player.id == id && sp.categoryName == name
  }

  predicate IsSelected(sel: seq<SelectedPlayer>, id: string, name: string) {
    exists k | 0 <= k < |sel| :: Matches(sel[k], id, name)
  }

  /** `selectedPlayers.filter(sp => !(sp.player.id === id && sp.categoryName === name))`. */
  function Deselect(sel: seq<SelectedPlayer>, id: string, name: string): (r: seq<SelectedPlayer>)
    ensures |r| <= |sel| && !IsSelected(r, id, name)
    ensures forall sp :: sp in r <==> sp in sel && !Matches(sp, id, name)
  {
    if |sel| == 0 then []
    else (if Matches(sel[0], id, name) then [] else [sel[0]]) + Deselect(sel[1..], id, name)
  }

  /** `selectPlayerForSwap`: toggles the (player id, category) pair; a new pair
      is added only while fewer than two are selected. Edit mode is not checked. */
  function SelectPlayerForSwap(s: GameState, player: Player, name: string): (r: GameState)
    ensures r == s.(selectedPlayers := r.selectedPlayers)
    ensures IsSelected(s.selectedPlayers, player.id, name) ==>
      r.selectedPlayers == Deselect(s.selectedPlayers, player.id, name)
    ensures !IsSelected(s.selectedPlayers, player.id, name) && |s.selectedPlayers| < 2 ==>
      r.selectedPlayers == s.selectedPlayers + [SelectedPlayer(player, name)]
    ensures !IsSelected(s.selectedPlayers, player.id, name) && |s.selectedPlayers| >= 2 ==> r == s
    ensures |s.selectedPlayers| <= 2 ==> |r.selectedPlayers| <= 2
  {
    if IsSelected(s.selectedPlayers, player.id, name) then
      s.(selectedPlayers := Deselect(s.selectedPlayers, player.id, name))
    else if |s.selectedPlayers| < 2 then
      s.(selectedPlayers := s.selectedPlayers + [SelectedPlayer(player, name)])
    else s
  }

  /** The scratch lists after exchanging the two selected entries, located by
      the first index of their ids. Within one list the two entries trade
      places; across two lists each slot receives the other selected record. */
  function SwappedLists(temp: CategorizedPlayers, first: SelectedPlayer, second: SelectedPlayer,
                        i: nat, j: nat): (r: CategorizedPlayers)
    requires i < |PlayersIn(temp, first.categoryName)| && j < |PlayersIn(temp, second.categoryName)|
    ensures r.Keys == temp.Keys
    ensures forall name :: name in temp && name != first.categoryName && name != second.categoryName ==>
      r[name] == temp[name]
    ensures first.categoryName == second.categoryName ==>
      var l := temp[first.categoryName];
      var m := r[first.categoryName];
      && |m| == |l| && m[i] == l[j] && m[j] == l[i]
      && forall k :: 0 <= k < |l| && k != i && k != j ==> m[k] == l[k]
    ensures first.categoryName != second.categoryName ==>
      var a := temp[first.categoryName];
      var b := temp[second.categoryName];
      var ra := r[first.categoryName];
      var rb := r[second.categoryName];
      && |ra| == |a| && ra[i] == second.player && (forall k :: 0 <= k < |a| && k != i ==> ra[k] == a[k])
      && |rb| == |b| && rb[j] == first.player && (forall k :: 0 <= k < |b| && k != j ==> rb[k] == b[k])
  {
    var firstList := PlayersIn(temp, first.categoryName);
    var secondList := PlayersIn(temp, second.categoryName);
    if first.categoryName == second.categoryName then
      temp[first.categoryName := firstList[i := firstList[j]][j := firstList[i]]]
    else
      temp[first.categoryName := firstList[i := second.player]]
          [second.categoryName := secondList[j := first.player]]
  }

  /** `swapSelectedPlayers`: fails, changing nothing, unless exactly two are
      selected and both ids are found in their stated scratch lists. On
      success only the scratch copy and the selection change: the scratch
      lists become `SwappedLists` at the first indices of the two ids, and
      the selection is cleared. */
  function SwapSelectedPlayers(s: GameState): (r: Outcome)
    ensures !r.ok ==> r.state == s
    ensures r.ok <==>
      |s.selectedPlayers| == 2
      && HasId(PlayersIn(s.tempCategorizedPlayers, s.selectedPlayers[0].categoryName), s.selectedPlayers[0].player.id)
      && HasId(PlayersIn(s.tempCategorizedPlayers, s.selectedPlayers[1].categoryName), s.selectedPlayers[1].player.id)
    ensures r.ok ==>
      && r.state == s.(tempCategorizedPlayers := r.state.tempCategorizedPlayers, selectedPlayers := [])
      && r.state.tempCategorizedPlayers.Keys == s.tempCategorizedPlayers.Keys
      && (forall name :: name in s.tempCategorizedPlayers ==>
            |r.state.tempCategorizedPlayers[name]| == |s.tempCategorizedPlayers[name]|)
    ensures r.ok ==>
      var first := s.selectedPlayers[0];
      var second := s.selectedPlayers[1];
      var temp := s.tempCategorizedPlayers;
      r.state.tempCategorizedPlayers
        == SwappedLists(temp, first, second,
                        FindIndexById(PlayersIn(temp, first.categoryName), first.player.id),
                        FindIndexById(PlayersIn(temp, second.categoryName), second.player.id))
  {
    if |s.selectedPlayers| != 2 then Outcome(s, false)
    else
      var first := s.selectedPlayers[0];
      var second := s.selectedPlayers[1];
      var temp := s.tempCategorizedPlayers;
      var i := FindIndexById(PlayersIn(temp, first.categoryName), first.player.id);
      var j := FindIndexById(PlayersIn(temp, second.categoryName), second.player.id);
      if i == -1 || j == -1 then Outcome(s, false)
      else
        Outcome(s.(tempCategorizedPlayers := SwappedLists(temp, first, second, i, j),
                   selectedPlayers := []), true)
  }
}
