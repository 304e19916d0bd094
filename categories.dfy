/** The fixed tier tables of the game: a 20-player set, a 10-player set, the
    choice between them by roster size, and the set the game store uses. */
module Categories {
  import opened Types

  function SumSlots(cats: seq<Category>): int {
    if |cats| == 0 then 0 else cats[0].slots + SumSlots(cats[1..])
  }

  predicate SlotsPositive(cats: seq<Category>) {
    forall i :: 0 <= i < |cats| ==> cats[i].slots > 0
  }

  predicate DistinctNames(cats: seq<Category>) {
    forall i, j :: 0 <= i < j < |cats| ==> cats[i].name != cats[j].name
  }

  /** The table for clubs with 20 players. */
  function StandardCategories(): seq<Category> {
    [ Category("goat", "#0EA94B", 2),
      Category("Хорош", "#94CC7A", 6),
      Category("норм", "#E6A324", 6),
      Category("Бездарь", "#E13826", 6) ]
  }

  /** The table for clubs with 10 players. */
  function CompactCategories(): seq<Category> {
    [ Category("goat", "#0EA94B", 1),
      Category("Хорош", "#94CC7A", 3),
      Category("норм", "#E6A324", 3),
      Category("Бездна", "#E13826", 3) ]
  }

  /** Small rosters (at most 10 players) get the compact table, all others the standard one. */
  function GetCategories(playerCount: int): (cats: seq<Category>)
    ensures cats == CompactCategories() <==> playerCount <= 10
    ensures cats == StandardCategories() <==> playerCount > 10
    ensures SumSlots(cats) == (if playerCount <= 10 then 10 else 20)
  {
    StandardTable();
    CompactTable();
    if playerCount <= 10 then CompactCategories() else StandardCategories()
  }

  /** The table the game store always uses, whatever the roster size. */
  function LocalCategories(): seq<Category> {
    StandardCategories()
  }

  /** The standard table holds 20 slots over four distinct names. */
  lemma StandardTable()
    ensures var cats := StandardCategories();
      |cats| == 4 && SumSlots(cats) == 20 && SlotsPositive(cats) && DistinctNames(cats)
  {
  }

  /** The compact table holds 10 slots over four distinct names. */
  lemma CompactTable()
    ensures var cats := CompactCategories();
      |cats| == 4 && SumSlots(cats) == 10 && SlotsPositive(cats) && DistinctNames(cats)
  {
  }

  /** The game store's table is the standard one. */
  lemma LocalTable()
    ensures LocalCategories() == StandardCategories()
    ensures SumSlots(LocalCategories()) == 20
    ensures SlotsPositive(LocalCategories()) && DistinctNames(LocalCategories())
  {
    StandardTable();
  }
}
