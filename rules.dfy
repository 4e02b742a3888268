/** The rules of the `columns` component as functions of the board's state:
    the column limits, adding and removing cards, the three moves, the lock,
    and the card commands, each of which ends in `checkCardStatus` and the move
    that emits. Every method of `Columns.Board` is proved to compute the
    function of the same name. */
module Rules {
  import opened Splice
  import opened Cards

  datatype Column = NewColumn | InProgressColumn | CompletedColumn

  /** A column limit; `Unbounded` is the `Infinity` of the Done column. */
  datatype Capacity = AtMost(limit: nat) | Unbounded

  /** `maxCards`: 3, 5 and `Infinity`. */
  function MaxCards(col: Column): (cap: Capacity)
    ensures cap.Unbounded? <==> col == CompletedColumn
    ensures cap.AtMost? ==> 0 < cap.limit <= 5
  {
    match col
    case NewColumn => AtMost(3)
    case InProgressColumn => AtMost(5)
    case CompletedColumn => Unbounded
  }

  /** Number addition on limits: anything plus `Infinity` is `Infinity`. */
  function Plus(a: Capacity, b: Capacity): (r: Capacity)
    ensures r.Unbounded? <==> a.Unbounded? || b.Unbounded?
    ensures r.AtMost? ==> r.limit == a.limit + b.limit
  {
    if a.AtMost? && b.AtMost? then AtMost(a.limit + b.limit) else Unbounded
  }

  /** `count >= cap`, never true of `Infinity`. */
  predicate Reached(count: nat, cap: Capacity)
    ensures Reached(count, cap) ==> cap.AtMost?
    ensures cap.AtMost? && count < cap.limit ==> !Reached(count, cap)
  {
    cap.AtMost? && count >= cap.limit
  }

  /** The reasons `addCard` alerts and returns, in the order it tests them. */
  datatype AddError = AllColumnsFull | ColumnFull(column: Column) | OnlyNewColumn | InProgressFull

  /** The three ordered card lists and the board-wide lock. */
  datatype BoardState = BoardState(
    newColumn: seq<Card>,
    inProgressColumn: seq<Card>,
    completedColumn: seq<Card>,
    locked: bool)

  /** `this[column]` */
  function CardsIn(s: BoardState, col: Column): seq<Card> {
    match col
    case NewColumn => s.newColumn
    case InProgressColumn => s.inProgressColumn
    case CompletedColumn => s.completedColumn
  }

  function WithCards(s: BoardState, col: Column, cards: seq<Card>): (r: BoardState)
    ensures CardsIn(r, col) == cards && r.locked == s.locked
    ensures forall other | other != col :: CardsIn(r, other) == CardsIn(s, other)
  {
    match col
    case NewColumn => s.(newColumn := cards)
    case InProgressColumn => s.(inProgressColumn := cards)
    case CompletedColumn => s.(completedColumn := cards)
  }

  function Total(s: BoardState): nat {
    |s.newColumn| + |s.inProgressColumn| + |s.completedColumn|
  }

  /** A card object on the board is identified by the column and the index it
      sits at; `indexOf` in another column finds nothing. */
  predicate Holds(s: BoardState, col: Column, i: int) {
    0 <= i < |CardsIn(s, col)|
  }

  /** The board after a card changed in place. */
  function UpdateCard(s: BoardState, col: Column, i: int, c: Card): (r: BoardState)
    requires Holds(s, col, i)
    ensures CardsIn(r, col) == CardsIn(s, col)[i := c] && r.locked == s.locked
    ensures forall other | other != col :: CardsIn(r, other) == CardsIn(s, other)
    ensures Total(r) == Total(s)
    ensures Valid(s) && WellFormed(c) ==> Valid(r)
  {
    WithCards(s, col, CardsIn(s, col)[i := c])
  }

  predicate AllWellFormed(cards: seq<Card>) {
    forall k | 0 <= k < |cards| :: WellFormed(cards[k])
  }

  /** What every operation keeps: each checklist has 3 to 5 entries, In process
      holds at most 5 cards, and New and In process together hold at most 7
      (an accepted `addCard` finds at most 2 and 4). New itself can exceed its
      limit of 3, because sending a card back does not test it. */
  predicate Valid(s: BoardState) {
    AllWellFormed(s.newColumn) && AllWellFormed(s.inProgressColumn) && AllWellFormed(s.completedColumn) &&
    |s.inProgressColumn| <= 5 &&
    |s.newColumn| + |s.inProgressColumn| <= 7
  }

  /** Every card on a valid board has a well-formed checklist. */
  lemma CardWellFormed(s: BoardState, col: Column, i: int)
    requires Valid(s) && Holds(s, col, i)
    ensures WellFormed(CardsIn(s, col)[i])
  {
  }

  /** The state `checkLock` establishes: the lock is set exactly when In
      process is full, and every card in New carries it. */
  predicate LockConsistent(s: BoardState) {
    (s.locked <==> |s.inProgressColumn| >= 5) &&
    forall k | 0 <= k < |s.newColumn| :: s.newColumn[k].locked == s.locked
  }

  /** The `forEach` of `checkLock`: every card gets the lock value. */
  function Relock(cards: seq<Card>, b: bool): (r: seq<Card>)
    ensures |r| == |cards|
    ensures forall k | 0 <= k < |r| :: r[k] == cards[k].(locked := b)
    ensures AllWellFormed(cards) ==> AllWellFormed(r)
  {
    seq(|cards|, k requires 0 <= k < |cards| => cards[k].(locked := b))
  }

  /** `checkLock` */
  function CheckLock(s: BoardState): (r: BoardState)
    ensures LockConsistent(r)
    ensures r.locked <==> |s.inProgressColumn| >= 5
    ensures r.inProgressColumn == s.inProgressColumn && r.completedColumn == s.completedColumn
    ensures |r.newColumn| == |s.newColumn|
    ensures forall k | 0 <= k < |r.newColumn| :: r.newColumn[k] == s.newColumn[k].(locked := r.locked)
    ensures Total(r) == Total(s)
    ensures Valid(s) ==> Valid(r)
  {
    var l := Reached(|s.inProgressColumn|, MaxCards(InProgressColumn));
    s.(locked := l, newColumn := Relock(s.newColumn, l))
  }

  /** On a board whose lock is consistent `checkLock` changes nothing; so a
      second `checkLock` never changes what the first one left. */
  lemma CheckLockFixpoint(s: BoardState)
    requires LockConsistent(s)
    ensures CheckLock(s) == s
    ensures CheckLock(CheckLock(s)) == CheckLock(s)
  {
    var r := CheckLock(s);
    assert r.newColumn == s.newColumn by {
      forall k | 0 <= k < |s.newColumn|
        ensures r.newColumn[k] == s.newColumn[k]
      {
        assert s.newColumn[k].locked == s.locked;
      }
    }
  }

  /** The tests of `addCard`, in its order: the board-wide total, the target
      column's limit, the target itself, and In process. */
  function AddCardCheck(s: BoardState, col: Column): (r: Option<AddError>)
    ensures r == None <==> col == NewColumn && |s.newColumn| < 3 && |s.inProgressColumn| < 5
    ensures r != Some(AllColumnsFull)
    ensures col == NewColumn && |s.newColumn| >= 3 ==> r == Some(ColumnFull(NewColumn))
  {
    var cap := Plus(Plus(MaxCards(NewColumn), MaxCards(InProgressColumn)), MaxCards(CompletedColumn));
    if Reached(Total(s), cap) then Some(AllColumnsFull)
    else if Reached(|CardsIn(s, col)|, MaxCards(col)) then Some(ColumnFull(col))
    else if col != NewColumn then Some(OnlyNewColumn)
    else if Reached(|s.inProgressColumn|, MaxCards(InProgressColumn)) then Some(InProgressFull)
    else None
  }

  /** `addCard` */
  function AddCard(s: BoardState, col: Column, customTitle: string): (r: BoardState)
    ensures col != NewColumn || |s.newColumn| >= 3 || |s.inProgressColumn| >= 5 ==> r == s
    ensures col == NewColumn && |s.newColumn| < 3 && |s.inProgressColumn| < 5 ==>
      r.newColumn == s.newColumn + [NewCard(customTitle)] &&
      r.inProgressColumn == s.inProgressColumn && r.completedColumn == s.completedColumn &&
      r.locked == s.locked
    ensures Valid(s) ==> Valid(r)
    ensures LockConsistent(s) ==> LockConsistent(r)
  {
    if AddCardCheck(s, col).Some? then s
    else s.(newColumn := s.newColumn + [NewCard(customTitle)])
  }

  /** `removeCard` of the columns component: splice, then `checkLock`. */
  function RemoveCard(s: BoardState, col: Column, index: int): (r: BoardState)
    ensures LockConsistent(r)
    ensures col != NewColumn ==> CardsIn(r, col) == RemoveAt(CardsIn(s, col), index)
    ensures col != NewColumn ==> |r.newColumn| == |s.newColumn|
    ensures col != NewColumn ==>
      forall k | 0 <= k < |r.newColumn| :: r.newColumn[k] == s.newColumn[k].(locked := r.locked)
    ensures col == NewColumn ==>
      |r.newColumn| == |RemoveAt(s.newColumn, index)| &&
      forall k | 0 <= k < |r.newColumn| :: r.newColumn[k] == RemoveAt(s.newColumn, index)[k].(locked := r.locked)
    ensures forall other | other != col && other != NewColumn :: CardsIn(r, other) == CardsIn(s, other)
    ensures Total(r) == Total(s) - (if ActualStart(|CardsIn(s, col)|, index) < |CardsIn(s, col)| then 1 else 0)
    ensures 0 <= index < |CardsIn(s, col)| ==> Total(r) == Total(s) - 1
    ensures Valid(s) ==> Valid(r)
  {
    var spliced := WithCards(s, col, RemoveAt(CardsIn(s, col), index));
    SpliceKeepsValid(s, col, index);
    CheckLock(spliced)
  }

  /** Splicing one card out of a column keeps `Valid` and takes at most that
      card off the total. */
  lemma SpliceKeepsValid(s: BoardState, col: Column, index: int)
    ensures var r := WithCards(s, col, RemoveAt(CardsIn(s, col), index));
      (Valid(s) ==> Valid(r)) &&
      Total(r) == Total(s) - (if ActualStart(|CardsIn(s, col)|, index) < |CardsIn(s, col)| then 1 else 0)
  {
    var cards := CardsIn(s, col);
    var rest := RemoveAt(cards, index);
    var r := WithCards(s, col, rest);
    assert |rest| <= |cards|;
    if AllWellFormed(cards) {
      forall k | 0 <= k < |rest|
        ensures WellFormed(rest[k])
      {
        assert rest[k] in cards;
      }
    }
    assert Total(r) == Total(s) - |cards| + |rest|;
  }

  /** `moveCardToInProgress` */
  function MoveCardToInProgress(s: BoardState, col: Column, i: int, now: string): (r: BoardState)
    ensures !Holds(s, col, i) || col != NewColumn || |s.inProgressColumn| >= 5 ==> r == s
    ensures Holds(s, col, i) && col == NewColumn && |s.inProgressColumn| < 5 ==>
      r.inProgressColumn ==
        s.inProgressColumn + [s.newColumn[i].(status := InProcess, comment := Some(ModifiedNote(now)))] &&
      |r.newColumn| == |s.newColumn| - 1 &&
      (forall k | 0 <= k < |r.newColumn| :: r.newColumn[k] == RemoveAt(s.newColumn, i)[k].(locked := r.locked)) &&
      r.completedColumn == s.completedColumn &&
      LockConsistent(r)
    ensures Total(r) == Total(s)
    ensures Valid(s) ==> Valid(r)
  {
    if col == NewColumn && Holds(s, col, i) then
      if Reached(|s.inProgressColumn|, MaxCards(InProgressColumn)) then s
      else
        var c := s.newColumn[i].(status := InProcess, comment := Some(ModifiedNote(now)));
        CheckLock(s.(newColumn := RemoveAt(s.newColumn, i), inProgressColumn := s.inProgressColumn + [c]))
    else s
  }

  /** `moveCardToCompleted`: no limit on Done; `checkLock` runs even when the
      card is not in In process. */
  function MoveCardToCompleted(s: BoardState, col: Column, i: int): (r: BoardState)
    ensures Holds(s, col, i) && col == InProgressColumn ==>
      r.completedColumn == s.completedColumn + [s.inProgressColumn[i]] &&
      r.inProgressColumn == RemoveAt(s.inProgressColumn, i)
    ensures !(Holds(s, col, i) && col == InProgressColumn) ==> r == CheckLock(s)
    ensures |r.newColumn| == |s.newColumn|
    ensures forall k | 0 <= k < |r.newColumn| :: r.newColumn[k] == s.newColumn[k].(locked := r.locked)
    ensures LockConsistent(r)
    ensures Total(r) == Total(s)
    ensures Valid(s) ==> Valid(r)
  {
    if col == InProgressColumn && Holds(s, col, i) then
      CheckLock(s.(inProgressColumn := RemoveAt(s.inProgressColumn, i),
                   completedColumn := s.completedColumn + [s.inProgressColumn[i]]))
    else CheckLock(s)
  }

  /** `moveCardToNew`: the card leaves In process with status 'New', and goes
      back to the end of In process when over half done, to New otherwise; the
      lock is not recomputed. */
  function MoveCardToNew(s: BoardState, col: Column, i: int, now: string): (r: BoardState)
    ensures !(Holds(s, col, i) && col == InProgressColumn) ==> r == s
    ensures Holds(s, col, i) && col == InProgressColumn ==>
      var c := s.inProgressColumn[i].(status := New);
      if Above(CompletionPercentage(c.items), 50.0) then
        r.inProgressColumn == RemoveAt(s.inProgressColumn, i) + [c.(comment := Some(ModifiedNote(now)))] &&
        r.newColumn == s.newColumn
      else
        r.inProgressColumn == RemoveAt(s.inProgressColumn, i) &&
        r.newColumn == s.newColumn + [c.(comment := Some(SentBackNote(now)))]
    ensures r.completedColumn == s.completedColumn && r.locked == s.locked
    ensures |r.inProgressColumn| <= |s.inProgressColumn|
    ensures Total(r) == Total(s)
    ensures Valid(s) ==> Valid(r)
  {
    if col == InProgressColumn && Holds(s, col, i) then
      var c := s.inProgressColumn[i].(status := New);
      var rest := RemoveAt(s.inProgressColumn, i);
      if Above(CompletionPercentage(c.items), 50.0) then
        s.(inProgressColumn := rest + [c.(comment := Some(ModifiedNote(now)))])
      else
        s.(inProgressColumn := rest, newColumn := s.newColumn + [c.(comment := Some(SentBackNote(now)))])
    else s
  }

  /** `checkCardStatus` of the card at (col, i): the decision, the fields
      written on the card, and the move emitted. The Done column listens to no
      move event, so a move emitted there is lost. */
  function CheckCardStatus(s: BoardState, col: Column, i: int, now: string): (r: BoardState)
    ensures !Holds(s, col, i) || Decide(CardsIn(s, col)[i]) == Stay ==> r == s
    ensures Total(r) == Total(s)
    ensures Valid(s) ==> Valid(r)
  {
    if !Holds(s, col, i) then s
    else
      var c := CardsIn(s, col)[i];
      var a := Decide(c);
      var marked := UpdateCard(s, col, i, Mark(c, a, now));
      if col == CompletedColumn then marked
      else match a
        case ToDone => MoveCardToCompleted(marked, col, i)
        case SendBack => MoveCardToNew(marked, col, i, now)
        case ToInProcess => MoveCardToInProgress(marked, col, i, now)
        case Stay => s
  }

  /** An In process card with every entry checked is marked 'Done', dated, and
      appended to Done; the lock is recomputed. */
  lemma StatusCheckCompletes(s: BoardState, i: int, now: string)
    requires Holds(s, InProgressColumn, i) && Decide(s.inProgressColumn[i]) == ToDone
    ensures var r := CheckCardStatus(s, InProgressColumn, i, now);
      r.completedColumn ==
        s.completedColumn + [s.inProgressColumn[i].(status := Done, completionDate := Some(now))] &&
      r.inProgressColumn == RemoveAt(s.inProgressColumn, i) &&
      |r.newColumn| == |s.newColumn| &&
      (forall k | 0 <= k < |r.newColumn| :: r.newColumn[k] == s.newColumn[k].(locked := r.locked)) &&
      LockConsistent(r)
  {
    var marked := UpdateCard(s, InProgressColumn, i, Mark(s.inProgressColumn[i], ToDone, now));
    assert RemoveAt(marked.inProgressColumn, i) == RemoveAt(s.inProgressColumn, i);
  }

  /** An In process card under half done always lands at the end of New with
      the 'Sent for Modified' comment: the branch of `moveCardToNew` that puts
      a card back into In process is never taken on this path. */
  lemma StatusCheckSendsBack(s: BoardState, i: int, now: string)
    requires Holds(s, InProgressColumn, i) && Decide(s.inProgressColumn[i]) == SendBack
    ensures var r := CheckCardStatus(s, InProgressColumn, i, now);
      r.newColumn ==
        s.newColumn + [s.inProgressColumn[i].(status := New, comment := Some(SentBackNote(now)))] &&
      r.inProgressColumn == RemoveAt(s.inProgressColumn, i) &&
      r.completedColumn == s.completedColumn &&
      r.locked == s.locked
  {
    var c := s.inProgressColumn[i];
    DecideByCounts(c);
    PercentageThresholds(c.items);
    var marked := UpdateCard(s, InProgressColumn, i, Mark(c, SendBack, now));
    assert RemoveAt(marked.inProgressColumn, i) == RemoveAt(s.inProgressColumn, i);
  }

  /** A New card over half done moves to the end of In process, marked
      'In process' with the 'Modified' comment, when In process has room. */
  lemma StatusCheckMovesForward(s: BoardState, i: int, now: string)
    requires Holds(s, NewColumn, i) && Decide(s.newColumn[i]) == ToInProcess
    requires |s.inProgressColumn| < 5
    ensures var r := CheckCardStatus(s, NewColumn, i, now);
      r.inProgressColumn ==
        s.inProgressColumn + [s.newColumn[i].(status := InProcess, comment := Some(ModifiedNote(now)))] &&
      |r.newColumn| == |s.newColumn| - 1 &&
      (forall k | 0 <= k < |r.newColumn| :: r.newColumn[k] == RemoveAt(s.newColumn, i)[k].(locked := r.locked)) &&
      r.completedColumn == s.completedColumn &&
      LockConsistent(r)
  {
    var c := s.newColumn[i];
    var marked := UpdateCard(s, NewColumn, i, Mark(c, ToInProcess, now));
    assert marked.newColumn[i] == c.(status := InProcess);
    assert RemoveAt(marked.newColumn, i) == RemoveAt(s.newColumn, i);
  }

  /** When In process is full, the move forward is refused but the status was
      already written: the card stays where it was in New, marked
      'In process'. */
  lemma StatusCheckStrands(s: BoardState, i: int, now: string)
    requires Holds(s, NewColumn, i) && Decide(s.newColumn[i]) == ToInProcess
    requires |s.inProgressColumn| >= 5
    ensures var r := CheckCardStatus(s, NewColumn, i, now);
      r == UpdateCard(s, NewColumn, i, s.newColumn[i].(status := InProcess)) &&
      r.newColumn[i].status == InProcess
  {
  }

  /** A card stranded that way and then completed becomes 'Done' in New: the
      move to Done finds nothing in In process, and only `checkLock` runs. */
  lemma StrandedCardCompletesInNew(s: BoardState, i: int, now: string)
    requires Holds(s, NewColumn, i) && Decide(s.newColumn[i]) == ToDone
    ensures var r := CheckCardStatus(s, NewColumn, i, now);
      r == CheckLock(UpdateCard(s, NewColumn, i, s.newColumn[i].(status := Done, completionDate := Some(now)))) &&
      r.newColumn[i].status == Done
  {
  }

  /** A stranded card that drops under half done is marked 'New' with the
      'Sent for Modified' comment where it sits: the move back finds nothing in
      In process, and the lock is not recomputed. */
  lemma StrandedCardSentBackInPlace(s: BoardState, i: int, now: string)
    requires Holds(s, NewColumn, i) && Decide(s.newColumn[i]) == SendBack
    ensures CheckCardStatus(s, NewColumn, i, now) ==
      UpdateCard(s, NewColumn, i, s.newColumn[i].(status := New, comment := Some(SentBackNote(now))))
  {
  }

  /** `removeCard` of the card component: refused for a 'Done' card. */
  function CardRemoveCard(s: BoardState, col: Column, i: int): (r: BoardState)
    ensures !Holds(s, col, i) || CardsIn(s, col)[i].status == Done ==> r == s
    ensures Holds(s, col, i) && CardsIn(s, col)[i].status != Done ==>
      Total(r) == Total(s) - 1 && LockConsistent(r) && r == RemoveCard(s, col, i)
    ensures Holds(s, col, i) && CardsIn(s, col)[i].status != Done && col != NewColumn ==>
      CardsIn(r, col) == CardsIn(s, col)[..i] + CardsIn(s, col)[i + 1..]
    ensures Valid(s) ==> Valid(r)
  {
    if Holds(s, col, i) && !ComponentLocked && CardsIn(s, col)[i].status != Done then RemoveCard(s, col, i)
    else s
  }

  /** `addItem` on the card at (col, i), then `checkCardStatus`. */
  function CardAddItem(s: BoardState, col: Column, i: int, now: string): (r: BoardState)
    ensures !Holds(s, col, i) || AddItem(CardsIn(s, col)[i]).None? ==> r == s
    ensures Holds(s, col, i) && AddItem(CardsIn(s, col)[i]).Some? ==>
      var c := AddItem(CardsIn(s, col)[i]).value;
      r == CheckCardStatus(UpdateCard(s, col, i, c), col, i, now) &&
      (Decide(c) == Stay ==> r == UpdateCard(s, col, i, c))
    ensures Total(r) == Total(s)
    ensures Valid(s) ==> Valid(r)
  {
    if !Holds(s, col, i) then s
    else match AddItem(CardsIn(s, col)[i])
      case None => s
      case Some(c) => CheckCardStatus(UpdateCard(s, col, i, c), col, i, now)
  }

  /** `removeItem` on the card at (col, i), then `checkCardStatus`. */
  function CardRemoveItem(s: BoardState, col: Column, i: int, index: int, now: string): (r: BoardState)
    ensures !Holds(s, col, i) || |CardsIn(s, col)[i].items| <= MinItems || CardsIn(s, col)[i].status == Done ==> r == s
    ensures Holds(s, col, i) && RemoveItem(CardsIn(s, col)[i], index).Some? ==>
      var c := RemoveItem(CardsIn(s, col)[i], index).value;
      r == CheckCardStatus(UpdateCard(s, col, i, c), col, i, now) &&
      (Decide(c) == Stay ==> r == UpdateCard(s, col, i, c))
    ensures Total(r) == Total(s)
    ensures Valid(s) ==> Valid(r)
  {
    if !Holds(s, col, i) then s
    else
      match RemoveItem(CardsIn(s, col)[i], index)
      case None => s
      case Some(c) => CheckCardStatus(UpdateCard(s, col, i, c), col, i, now)
  }

  /** `saveItem` on the card at (col, i), then `checkCardStatus`. */
  function CardSaveItem(s: BoardState, col: Column, i: int, index: int, now: string): (r: BoardState)
    ensures !Holds(s, col, i) || SaveItem(CardsIn(s, col)[i], index).None? ==> r == s
    ensures Holds(s, col, i) && SaveItem(CardsIn(s, col)[i], index).Some? ==>
      var c := SaveItem(CardsIn(s, col)[i], index).value;
      r == CheckCardStatus(UpdateCard(s, col, i, c), col, i, now) &&
      (Decide(c) == Stay ==> r == UpdateCard(s, col, i, c))
    ensures Total(r) == Total(s)
    ensures Valid(s) ==> Valid(r)
  {
    if !Holds(s, col, i) then s
    else
      match SaveItem(CardsIn(s, col)[i], index)
      case None => s
      case Some(c) => CheckCardStatus(UpdateCard(s, col, i, c), col, i, now)
  }

  /** `editItem` on the card at (col, i); it does not save. */
  function CardEditItem(s: BoardState, col: Column, i: int, index: int): (r: BoardState)
    ensures !Holds(s, col, i) || EditItem(CardsIn(s, col)[i], index).None? ==> r == s
    ensures Holds(s, col, i) && EditItem(CardsIn(s, col)[i], index).Some? ==>
      r == UpdateCard(s, col, i, EditItem(CardsIn(s, col)[i], index).value)
    ensures Valid(s) ==> Valid(r)
  {
    if !Holds(s, col, i) then s
    else
      match EditItem(CardsIn(s, col)[i], index)
      case None => s
      case Some(c) => UpdateCard(s, col, i, c)
  }

  /** A change of one checkbox: the bound `completed` flag is written, then
      the card's `saveToLocalStorage` runs `checkCardStatus`. */
  function ToggleItem(s: BoardState, col: Column, i: int, index: int, value: bool, now: string): (r: BoardState)
    ensures !Holds(s, col, i) || !(0 <= index < |CardsIn(s, col)[i].items|) ==> r == s
    ensures Holds(s, col, i) && 0 <= index < |CardsIn(s, col)[i].items| ==>
      var c := SetCompleted(CardsIn(s, col)[i], index, value);
      r == CheckCardStatus(UpdateCard(s, col, i, c), col, i, now) &&
      (Decide(c) == Stay ==> r == UpdateCard(s, col, i, c))
    ensures Total(r) == Total(s)
    ensures Valid(s) ==> Valid(r)
  {
    if Holds(s, col, i) && 0 <= index < |CardsIn(s, col)[i].items| then
      CheckCardStatus(UpdateCard(s, col, i, SetCompleted(CardsIn(s, col)[i], index, value)), col, i, now)
    else s
  }

  /** A change of one entry's text: the bound `text` is written, then the
      card's `saveToLocalStorage` runs `checkCardStatus`. */
  function EditItemText(s: BoardState, col: Column, i: int, index: int, text: string, now: string): (r: BoardState)
    ensures !Holds(s, col, i) || !(0 <= index < |CardsIn(s, col)[i].items|) ==> r == s
    ensures Holds(s, col, i) && 0 <= index < |CardsIn(s, col)[i].items| ==>
      var c := SetText(CardsIn(s, col)[i], index, text);
      r == CheckCardStatus(UpdateCard(s, col, i, c), col, i, now) &&
      (Decide(c) == Stay ==> r == UpdateCard(s, col, i, c))
    ensures Total(r) == Total(s)
    ensures Valid(s) ==> Valid(r)
  {
    if Holds(s, col, i) && 0 <= index < |CardsIn(s, col)[i].items| then
      CheckCardStatus(UpdateCard(s, col, i, SetText(CardsIn(s, col)[i], index, text)), col, i, now)
    else s
  }

  /** Adding a card to New and then removing the card at its index gives
      back a board whose lock was consistent. */
  lemma RemoveUndoesAddCard(s: BoardState, customTitle: string)
    requires LockConsistent(s) && |s.newColumn| < 3 && |s.inProgressColumn| < 5
    ensures RemoveCard(AddCard(s, NewColumn, customTitle), NewColumn, |s.newColumn|) == s
  {
    RemoveAfterPush(s.newColumn, NewCard(customTitle));
    CheckLockFixpoint(s);
  }

  /** An In process card with one of three entries checked. */
  function SentBackCard(): (c: Card)
    ensures WellFormed(c) && Decide(c) == SendBack
  {
    var c := Card("", [Item("", true, true), Item("", false, true), Item("", false, true)],
                  InProcess, false, None, None);
    assert DoneCount(c.items) == 1;
    DecideByCounts(c);
    c
  }

  /** Sending a card back from a full In process leaves the lock set with
      four cards in In process and an unlocked card in New, because
      `moveCardToNew` does not call `checkLock`. */
  lemma SendBackLeavesLockStale(now: string)
    ensures var c := SentBackCard();
      var s := BoardState([], [c, c, c, c, c], [], true);
      Valid(s) && LockConsistent(s) &&
      var r := CheckCardStatus(s, InProgressColumn, 0, now);
      |r.inProgressColumn| == 4 && r.locked && |r.newColumn| == 1 && !r.newColumn[0].locked &&
      !LockConsistent(r)
  {
    var c := SentBackCard();
    var s := BoardState([], [c, c, c, c, c], [], true);
    assert Valid(s) && LockConsistent(s);
    StatusCheckSendsBack(s, 0, now);
    var r := CheckCardStatus(s, InProgressColumn, 0, now);
    assert r.newColumn == [c.(status := New, comment := Some(SentBackNote(now)))];
    assert r.inProgressColumn == RemoveAt(s.inProgressColumn, 0);
    assert |r.inProgressColumn| == 4 && r.locked;
  }

  /** New already at its limit of 3 takes a fourth card sent back from In
      process: only `addCard` tests the limit of New. */
  lemma SendBackOverfillsNew(now: string)
    ensures var c := SentBackCard();
      var s := BoardState([NewCard(""), NewCard(""), NewCard("")], [c], [], false);
      Valid(s) && LockConsistent(s) &&
      |CheckCardStatus(s, InProgressColumn, 0, now).newColumn| == 4
  {
    var c := SentBackCard();
    var s := BoardState([NewCard(""), NewCard(""), NewCard("")], [c], [], false);
    assert Valid(s) && LockConsistent(s);
    StatusCheckSendsBack(s, 0, now);
    var r := CheckCardStatus(s, InProgressColumn, 0, now);
    assert r.newColumn == s.newColumn + [c.(status := New, comment := Some(SentBackNote(now)))];
  }

  /** Checking the last unchecked entry of an In process card completes it:
      the card, marked 'Done' and dated, is appended to Done. */
  lemma CheckingLastEntryCompletes(s: BoardState, i: int, index: int, now: string)
    requires Holds(s, InProgressColumn, i) && s.inProgressColumn[i].status == InProcess
    requires 0 <= index < |s.inProgressColumn[i].items|
    requires forall k | 0 <= k < |s.inProgressColumn[i].items| && k != index :: s.inProgressColumn[i].items[k].completed
    ensures var c := SetCompleted(s.inProgressColumn[i], index, true);
      var r := ToggleItem(s, InProgressColumn, i, index, true, now);
      r.completedColumn == s.completedColumn + [c.(status := Done, completionDate := Some(now))] &&
      r.inProgressColumn == RemoveAt(s.inProgressColumn, i)
  {
    var c := SetCompleted(s.inProgressColumn[i], index, true);
    assert AllCompleted(c.items);
    var t := UpdateCard(s, InProgressColumn, i, c);
    StatusCheckCompletes(t, i, now);
    assert RemoveAt(t.inProgressColumn, i) == RemoveAt(s.inProgressColumn, i);
  }

  /** Adding an entry can send a card back: an In process card with 2 of 4
      entries checked (exactly half, so it stayed) has 2 of 5 after `addItem`,
      and the status check that saving runs sends it to the end of New. */
  lemma AddItemCanSendBack(s: BoardState, i: int, now: string)
    requires Holds(s, InProgressColumn, i) && s.inProgressColumn[i].status == InProcess
    requires |s.inProgressColumn[i].items| == 4 && DoneCount(s.inProgressColumn[i].items) == 2
    ensures var c := s.inProgressColumn[i];
      var r := CardAddItem(s, InProgressColumn, i, now);
      r.newColumn ==
        s.newColumn + [c.(items := c.items + [BlankItem], status := New, comment := Some(SentBackNote(now)))] &&
      r.inProgressColumn == RemoveAt(s.inProgressColumn, i)
  {
    var c := s.inProgressColumn[i];
    var added := c.(items := c.items + [BlankItem]);
    CountAppendBlank(c.items);
    DecideByCounts(added);
    var t := UpdateCard(s, InProgressColumn, i, added);
    StatusCheckSendsBack(t, i, now);
    assert RemoveAt(t.inProgressColumn, i) == RemoveAt(s.inProgressColumn, i);
  }

  /** The board a first visit starts from: `data()` with nothing stored, then
      `checkLock`. */
  function Initial(): (r: BoardState)
    ensures Valid(r) && LockConsistent(r) && Total(r) == 0 && !r.locked
  {
    CheckLock(BoardState([], [], [], false))
  }
}
