/** The modal store: a dialog that is either closed, open with a message, or
    open offering the players of a full category for replacement. Every
    action overwrites all five fields, so the dialog's state after an action
    is a function of the action's arguments alone. */
module ModalStore {
  import opened Types

  datatype ModalMode = Message | ReplacePlayer

  datatype ModalState = ModalState(isOpen: bool, mode: ModalMode, message: string,
                                   categoryName: string, players: seq<Player>)

  /** The values the store is created with; `closeModal` writes the same. */
  function Closed(): ModalState {
    ModalState(false, Message, "", "", [])
  }

  /** The state `showMessageModal(message)` writes. */
  function MessageShown(message: string): ModalState {
    ModalState(true, Message, message, "", [])
  }

  /** The state `showReplacePlayerModal(categoryName, players)` writes. */
  function ReplaceShown(categoryName: string, players: seq<Player>): ModalState {
    ModalState(true, ReplacePlayer, "", categoryName, players)
  }

  /** What every reachable state satisfies: a closed dialog is exactly the
      initial one, a message dialog names no category and offers no players,
      and a replacement dialog carries no message. */
  predicate WellFormed(s: ModalState) {
    && (!s.isOpen ==> s == Closed())
    && (s.mode == Message ==> s.categoryName == "" && s.players == [])
    && (s.mode == ReplacePlayer ==> s.message == "")
  }

  /** A well-formed state is exactly one of the three kinds the actions write,
      and which one is read off `isOpen` and `mode`. */
  lemma WellFormedIsReachable(s: ModalState)
    requires WellFormed(s)
    ensures !s.isOpen <==> s == Closed()
    ensures s.isOpen && s.mode == Message <==> s == MessageShown(s.message)
    ensures s.isOpen && s.mode == ReplacePlayer <==> s == ReplaceShown(s.categoryName, s.players)
  {
  }

  /** The three written states are well formed and pairwise distinct: an open
      dialog is never the closed one, and the two open modes never coincide. */
  lemma ShownStatesDistinct(message: string, categoryName: string, players: seq<Player>)
    ensures WellFormed(Closed()) && WellFormed(MessageShown(message))
    ensures WellFormed(ReplaceShown(categoryName, players))
    ensures MessageShown(message) != Closed() && ReplaceShown(categoryName, players) != Closed()
    ensures MessageShown(message) != ReplaceShown(categoryName, players)
  {
  }

  class ModalStore {
    var isOpen: bool
    var mode: ModalMode
    var message: string
    var categoryName: string
    var players: seq<Player>

    function State(): ModalState
      reads this
    {
      ModalState(isOpen, mode, message, categoryName, players)
    }

    ghost predicate Valid()
      reads this
    {
      WellFormed(State())
    }

    constructor ()
      ensures Valid() && State() == Closed()
    {
      isOpen := false;
      mode := Message;
      message := "";
      categoryName := "";
      players := [];
    }

    /** Opens the dialog with a message and clears the replacement fields. */
    method ShowMessageModal(text: string)
      modifies this
      ensures Valid() && State() == MessageShown(text)
    {
      isOpen := true;
      mode := Message;
      message := text;
      categoryName := "";
      players := [];
    }

    /** Opens the dialog offering `list` from `name` for replacement and clears
        the message. */
    method ShowReplacePlayerModal(name: string, list: seq<Player>)
      modifies this
      ensures Valid() && State() == ReplaceShown(name, list)
    {
      isOpen := true;
      mode := ReplacePlayer;
      message := "";
      categoryName := name;
      players := list;
    }

    /** Restores every field to its initial value, whatever the dialog showed;
        so closing twice is closing once. */
    method CloseModal()
      modifies this
      ensures Valid() && State() == Closed()
    {
      isOpen := false;
      mode := Message;
      message := "";
      categoryName := "";
      players := [];
    }
  }
}
