/** The records shared by the store, the pages and the API layer. */
module Types {

  /** A football player as the client keeps it; `id` is the identity. */
  datatype Player = Player(id: string, name: string, imgUrl: string, clubId: string)

  datatype Club = Club(id: string, name: string, imgUrl: string)

  /** A tier of the tier list: a unique name, a display colour and a capacity. */
  datatype Category = Category(name: string, color: string, slots: int)

  /** Category name to the players placed in it, in display order. */
  type CategorizedPlayers = map<string, seq<Player>>

  /** `categorizedPlayers[name] || []`: a missing key reads as an empty list. */
  function PlayersIn(m: CategorizedPlayers, name: string): seq<Player> {
    if name in m then m[name] else []
  }

  function Ids(players: seq<Player>): seq<string> {
    seq(|players|, i requires 0 <= i < |players| => players[i].id)
  }
}
