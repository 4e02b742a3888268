/** The `columns` component as an object: three card lists and the lock,
    changed in place by its methods. The commands of the `card` component are
    methods of the board too, because the board owns every card: the card
    they act on is named by its column and its index there, and a changed card
    is written back into its place. Each method is proved to compute the
    function of the same name in `Rules`. */
module Columns {
  import opened Splice
  import opened Cards
  import opened Rules

  class Board {
    var newColumn: seq<Card>
    var inProgressColumn: seq<Card>
    var completedColumn: seq<Card>
    var locked: bool

    /** The board as a value. */
    function State(): BoardState
      reads this
    {
      BoardState(newColumn, inProgressColumn, completedColumn, locked)
    }

    ghost predicate Valid()
      reads this
    {
      Rules.Valid(State())
    }

    /** `this[column]` */
    function CardsOf(col: Column): seq<Card>
      reads this
    {
      CardsIn(State(), col)
    }

    /** `data()` with an empty store, then `created()`, whose load finds
        nothing and whose `checkLock` leaves the board unlocked. */
    constructor ()
      ensures State() == Initial()
      ensures Valid() && LockConsistent(State())
    {
      newColumn, inProgressColumn, completedColumn, locked := [], [], [], false;
      new;
      CheckLock();
    }

    /** `checkLock`: the lock follows the size of In process, and the `forEach`
        writes it into every card of New. */
    method CheckLock()
      requires Valid()
      modifies this
      ensures State() == Rules.CheckLock(old(State()))
      ensures Valid() && LockConsistent(State())
    {
      locked := Reached(|inProgressColumn|, MaxCards(InProgressColumn));
      var k := 0;
      while k < |newColumn|
        invariant 0 <= k <= |newColumn| == |old(newColumn)|
        invariant inProgressColumn == old(inProgressColumn) && completedColumn == old(completedColumn)
        invariant locked == Reached(|inProgressColumn|, MaxCards(InProgressColumn))
        invariant forall j | 0 <= j < k :: newColumn[j] == old(newColumn)[j].(locked := locked)
        invariant forall j | k <= j < |newColumn| :: newColumn[j] == old(newColumn)[j]
      {
        newColumn := newColumn[k := newColumn[k].(locked := locked)];
        k := k + 1;
      }
      assert newColumn == Relock(old(newColumn), locked);
    }

    /** `addCard`: the outcome is the alert shown, `None` when the card was
        appended to New. */
    method AddCard(col: Column, customTitle: string) returns (outcome: Option<AddError>)
      requires Valid()
      modifies this
      ensures State() == Rules.AddCard(old(State()), col, customTitle)
      ensures outcome == AddCardCheck(old(State()), col)
      ensures Valid()
    {
      var totalCards := |newColumn| + |inProgressColumn| + |completedColumn|;
      if Reached(totalCards, Plus(Plus(MaxCards(NewColumn), MaxCards(InProgressColumn)), MaxCards(CompletedColumn))) {
        return Some(AllColumnsFull);
      }
      if Reached(|CardsOf(col)|, MaxCards(col)) {
        return Some(ColumnFull(col));
      }
      if col != NewColumn {
        return Some(OnlyNewColumn);
      }
      if Reached(|inProgressColumn|, MaxCards(InProgressColumn)) {
        return Some(InProgressFull);
      }
      var newCard := NewCard(customTitle);
      newColumn := newColumn + [newCard];
      return None;
    }

    /** `removeCard` of the columns component. */
    method RemoveCard(col: Column, cardIndex: int)
      requires Valid()
      modifies this
      ensures State() == Rules.RemoveCard(old(State()), col, cardIndex)
      ensures Valid() && LockConsistent(State())
    {
      SetColumn(col, RemoveAt(CardsOf(col), cardIndex));
      CheckLock();
    }

    /** `moveCardToInProgress` of the card at (col, i). */
    method MoveCardToInProgress(col: Column, i: int, now: string)
      requires Valid()
      modifies this
      ensures State() == Rules.MoveCardToInProgress(old(State()), col, i, now)
      ensures Valid()
    {
      var index := if col == NewColumn && 0 <= i < |newColumn| then i else -1;
      if index != -1 {
        if Reached(|inProgressColumn|, MaxCards(InProgressColumn)) {
          return;
        }
        var card := newColumn[index];
        newColumn := RemoveAt(newColumn, index);
        card := card.(status := InProcess);
        card := card.(comment := Some(ModifiedNote(now)));
        inProgressColumn := inProgressColumn + [card];
        CheckLock();
      }
    }

    /** `moveCardToCompleted` of the card at (col, i). */
    method MoveCardToCompleted(col: Column, i: int)
      requires Valid()
      modifies this
      ensures State() == Rules.MoveCardToCompleted(old(State()), col, i)
      ensures Valid() && LockConsistent(State())
    {
      var index := if col == InProgressColumn && 0 <= i < |inProgressColumn| then i else -1;
      if index != -1 {
        var card := inProgressColumn[index];
        inProgressColumn := RemoveAt(inProgressColumn, index);
        completedColumn := completedColumn + [card];
      }
      CheckLock();
    }

    /** `moveCardToNew` of the card at (col, i). */
    method MoveCardToNew(col: Column, i: int, now: string)
      requires Valid()
      modifies this
      ensures State() == Rules.MoveCardToNew(old(State()), col, i, now)
      ensures Valid()
    {
      var index := if col == InProgressColumn && 0 <= i < |inProgressColumn| then i else -1;
      if index != -1 {
        var card := inProgressColumn[index];
        inProgressColumn := RemoveAt(inProgressColumn, index);
        card := card.(status := New);
        if Above(CompletionPercentage(card.items), 50.0) {
          card := card.(comment := Some(ModifiedNote(now)));
          inProgressColumn := inProgressColumn + [card];
        } else {
          card := card.(comment := Some(SentBackNote(now)));
          newColumn := newColumn + [card];
        }
      }
    }

    /** `checkCardStatus` of the card at (col, i): write the new status (and
        the date or the comment), then make the move the card emits. */
    method CheckCardStatus(col: Column, i: int, now: string)
      requires Valid()
      modifies this
      ensures State() == Rules.CheckCardStatus(old(State()), col, i, now)
      ensures Valid()
    {
      if !(0 <= i < |CardsOf(col)|) {
        return;
      }
      var card := CardsOf(col)[i];
      CardWellFormed(State(), col, i);
      if col == CompletedColumn {
        // the Done column forwards no move event: only the card's fields change
        SetCard(col, i, Mark(card, Decide(card), now));
        return;
      }
      match Decide(card) {
        case ToDone =>
          card := card.(status := Done);
          card := card.(completionDate := Some(now));
          SetCard(col, i, card);
          MoveCardToCompleted(col, i);
        case SendBack =>
          card := card.(status := New);
          card := card.(comment := Some(SentBackNote(now)));
          SetCard(col, i, card);
          MoveCardToNew(col, i, now);
        case ToInProcess =>
          card := card.(status := InProcess);
          SetCard(col, i, card);
          MoveCardToInProgress(col, i, now);
        case Stay =>
      }
    }

    /** `removeCard` of the card component: refused for a 'Done' card. */
    method CardRemoveCard(col: Column, i: int)
      requires Valid()
      modifies this
      ensures State() == Rules.CardRemoveCard(old(State()), col, i)
      ensures Valid()
    {
      if 0 <= i < |CardsOf(col)| && !ComponentLocked && CardsOf(col)[i].status != Done {
        RemoveCard(col, i);
      }
    }

    /** `addItem` on the card at (col, i); saving runs `checkCardStatus`. */
    method CardAddItem(col: Column, i: int, now: string)
      requires Valid()
      modifies this
      ensures State() == Rules.CardAddItem(old(State()), col, i, now)
      ensures Valid()
    {
      if 0 <= i < |CardsOf(col)| {
        match AddItem(CardsOf(col)[i]) {
          case Some(card) =>
            SetCard(col, i, card);
            CheckCardStatus(col, i, now);
          case None =>
        }
      }
    }

    /** `removeItem` on the card at (col, i); saving runs `checkCardStatus`. */
    method CardRemoveItem(col: Column, i: int, index: int, now: string)
      requires Valid()
      modifies this
      ensures State() == Rules.CardRemoveItem(old(State()), col, i, index, now)
      ensures Valid()
    {
      if 0 <= i < |CardsOf(col)| {
        CardWellFormed(State(), col, i);
        match RemoveItem(CardsOf(col)[i], index) {
          case Some(card) =>
            SetCard(col, i, card);
            CheckCardStatus(col, i, now);
          case None =>
        }
      }
    }

    /** `saveItem` on the card at (col, i); saving runs `checkCardStatus`. */
    method CardSaveItem(col: Column, i: int, index: int, now: string)
      requires Valid()
      modifies this
      ensures State() == Rules.CardSaveItem(old(State()), col, i, index, now)
      ensures Valid()
    {
      if 0 <= i < |CardsOf(col)| {
        CardWellFormed(State(), col, i);
        match SaveItem(CardsOf(col)[i], index) {
          case Some(card) =>
            SetCard(col, i, card);
            CheckCardStatus(col, i, now);
          case None =>
        }
      }
    }

    /** `editItem` on the card at (col, i). */
    method CardEditItem(col: Column, i: int, index: int)
      requires Valid()
      modifies this
      ensures State() == Rules.CardEditItem(old(State()), col, i, index)
      ensures Valid()
    {
      if 0 <= i < |CardsOf(col)| {
        CardWellFormed(State(), col, i);
        match EditItem(CardsOf(col)[i], index) {
          case Some(card) =>
            SetCard(col, i, card);
          case None =>
        }
      }
    }

    /** A checkbox change on entry `index` of the card at (col, i). */
    method ToggleItem(col: Column, i: int, index: int, value: bool, now: string)
      requires Valid()
      modifies this
      ensures State() == Rules.ToggleItem(old(State()), col, i, index, value, now)
      ensures Valid()
    {
      if 0 <= i < |CardsOf(col)| && 0 <= index < |CardsOf(col)[i].items| {
        CardWellFormed(State(), col, i);
        SetCard(col, i, SetCompleted(CardsOf(col)[i], index, value));
        CheckCardStatus(col, i, now);
      }
    }

    /** A text input on entry `index` of the card at (col, i). */
    method EditItemText(col: Column, i: int, index: int, text: string, now: string)
      requires Valid()
      modifies this
      ensures State() == Rules.EditItemText(old(State()), col, i, index, text, now)
      ensures Valid()
    {
      if 0 <= i < |CardsOf(col)| && 0 <= index < |CardsOf(col)[i].items| {
        CardWellFormed(State(), col, i);
        SetCard(col, i, SetText(CardsOf(col)[i], index, text));
        CheckCardStatus(col, i, now);
      }
    }

    /** Writes a changed card back into its place. */
    method SetCard(col: Column, i: int, card: Card)
      requires 0 <= i < |CardsOf(col)|
      modifies this
      ensures State() == UpdateCard(old(State()), col, i, card)
    {
      SetColumn(col, CardsOf(col)[i := card]);
    }

    /** Replaces the list `this[column]`. */
    method SetColumn(col: Column, cards: seq<Card>)
      modifies this
      ensures State() == WithCards(old(State()), col, cards)
    {
      match col {
        case NewColumn => newColumn := cards;
        case InProgressColumn => inProgressColumn := cards;
        case CompletedColumn => completedColumn := cards;
      }
    }
  }
}
