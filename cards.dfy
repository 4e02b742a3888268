/** A card of the board and the rules of the `card` component: the completion
    percentage over the checklist, the status decision made after every change
    to the card, and the checklist commands. Cards are values here; the board
    owns them and writes a changed card back into its column. */
module Cards {
  import opened Splice

  datatype Option<T> = None | Some(value: T)

  /** The three status strings 'New', 'In process' and 'Done'. */
  datatype Status = New | InProcess | Done

  /** One checklist entry: `{ text, completed, editing }`. */
  datatype Item = Item(text: string, completed: bool, editing: bool)

  /** A note. `comment` and `completionDate` are absent until a move or the
      completion writes them. */
  datatype Card = Card(
    title: string,
    items: seq<Item>,
    status: Status,
    locked: bool,
    comment: Option<string>,
    completionDate: Option<string>)

  const MinItems: nat := 3
  const MaxItems: nat := 5
  const DefaultTitle: string := "New note"

  /** The entry `addCard` and `addItem` create: empty, unchecked, editable. */
  const BlankItem: Item := Item("", false, true)

  /** `this.locked` inside the card component. The component declares only the
      prop `card`, so the `locked` the column binds on it is not a prop and the
      expression reads `undefined`, which is falsy. */
  const ComponentLocked: bool := false

  /** The checklist size every card keeps. */
  predicate WellFormed(c: Card) {
    MinItems <= |c.items| <= MaxItems
  }

  predicate AllCompleted(items: seq<Item>) {
    forall k | 0 <= k < |items| :: items[k].completed
  }

  /** `items.filter(item => item.completed)`. */
  function Completed(items: seq<Item>): (r: seq<Item>)
    ensures |r| <= |items|
    ensures forall x | x in r :: x.completed && x in items
    ensures |r| == |items| <==> AllCompleted(items)
  {
    if items == [] then []
    else if items[0].completed then [items[0]] + Completed(items[1..])
    else Completed(items[1..])
  }

  /** The number of checked entries. */
  function DoneCount(items: seq<Item>): nat {
    |Completed(items)|
  }

  /** A JavaScript number as `(completed / total) * 100` yields it: `NaN` for
      an empty checklist (0 / 0), an exact percentage otherwise. */
  datatype Percent = NaN | Pct(value: real)

  /** `p === 100` */
  predicate IsHundred(p: Percent) {
    p == Pct(100.0)
  }

  /** `p < bound`; false for NaN. */
  predicate Below(p: Percent, bound: real) {
    p.Pct? && p.value < bound
  }

  /** `p > bound`; false for NaN. */
  predicate Above(p: Percent, bound: real) {
    p.Pct? && p.value > bound
  }

  /** `checkCompletionPercentage` and the computation that opens
      `checkCardStatus`. */
  function CompletionPercentage(items: seq<Item>): (p: Percent)
    ensures p.NaN? <==> items == []
    ensures p.Pct? ==> 0.0 <= p.value <= 100.0
    ensures IsHundred(p) <==> items != [] && AllCompleted(items)
  {
    if items == [] then NaN
    else
      RatioFacts(DoneCount(items), |items|);
      Pct((DoneCount(items) as real / |items| as real) * 100.0)
  }

  /** The exact comparisons of a percentage `d / t * 100` with 50 and 100 in
      integer terms. */
  lemma RatioFacts(d: nat, t: nat)
    requires 0 < t && d <= t
    ensures var p := (d as real / t as real) * 100.0;
      0.0 <= p <= 100.0 &&
      (p == 100.0 <==> d == t) &&
      (p < 50.0 <==> 2 * d < t) &&
      (p > 50.0 <==> 2 * d > t)
  {
    var dr, tr := d as real, t as real;
    var q := dr / tr;
    assert q * tr == dr;
    var p := q * 100.0;
    assert p * tr == 100.0 * (q * tr) == 100.0 * dr;
    var pt := p * tr;
    ScaleCompare(p, 0.0, tr, pt, 0.0);
    ScaleCompare(p, 100.0, tr, pt, 100.0 * tr);
    ScaleCompare(p, 50.0, tr, pt, 50.0 * tr);
    assert 100.0 * dr < 50.0 * tr <==> 2 * d < t;
    assert 100.0 * dr == 50.0 * tr <==> 2 * d == t;
  }

  /** Multiplying both sides by a positive number `t` keeps the order:
      `xt` and `yt` are `x * t` and `y * t`. */
  lemma ScaleCompare(x: real, y: real, t: real, xt: real, yt: real)
    requires t > 0.0 && xt == x * t && yt == y * t
    ensures x < y <==> xt < yt
    ensures x == y <==> xt == yt
  {
    assert xt - yt == (x - y) * t;
  }

  /** The percentage thresholds of the card rules, as cross-multiplied counts:
      below 50% is `2 * done < total`, above 50% is `2 * done > total`, exactly
      50% is `2 * done == total`, and 100% is `done == total`. */
  lemma PercentageThresholds(items: seq<Item>)
    requires items != []
    ensures Below(CompletionPercentage(items), 50.0) <==> 2 * DoneCount(items) < |items|
    ensures Above(CompletionPercentage(items), 50.0) <==> 2 * DoneCount(items) > |items|
    ensures IsHundred(CompletionPercentage(items)) <==> DoneCount(items) == |items|
  {
    RatioFacts(DoneCount(items), |items|);
  }

  /** What `checkCardStatus` decides to do with a card. */
  datatype Action = ToDone | SendBack | ToInProcess | Stay

  /** The branch `checkCardStatus` takes, tested in the source's order. */
  function Decide(c: Card): (a: Action)
    ensures a == ToDone ==> c.status == InProcess && AllCompleted(c.items)
    ensures a == SendBack ==> c.status == InProcess && !AllCompleted(c.items)
    ensures a == ToInProcess ==> c.status == New
    ensures c.status == Done ==> a == Stay
  {
    var p := CompletionPercentage(c.items);
    if IsHundred(p) && c.status == InProcess then ToDone
    else if Below(p, 50.0) && c.status == InProcess then SendBack
    else if Above(p, 50.0) && c.status == New then ToInProcess
    else Stay
  }

  /** The decision in terms of counts alone, in both directions: an
      'In process' card with every entry checked is completed, an 'In process'
      card under half is sent back, a 'New' card over half goes forward, and
      nothing else (an exact half included) moves. */
  lemma DecideByCounts(c: Card)
    ensures Decide(c) == ToDone <==>
      c.status == InProcess && c.items != [] && DoneCount(c.items) == |c.items|
    ensures Decide(c) == SendBack <==>
      c.status == InProcess && 2 * DoneCount(c.items) < |c.items|
    ensures Decide(c) == ToInProcess <==>
      c.status == New && 2 * DoneCount(c.items) > |c.items|
    ensures Decide(c) == Stay <==>
      c.status == Done ||
      (c.status == InProcess && 2 * DoneCount(c.items) >= |c.items| && (c.items == [] || DoneCount(c.items) < |c.items|)) ||
      (c.status == New && 2 * DoneCount(c.items) <= |c.items|)
  {
    if c.items != [] {
      PercentageThresholds(c.items);
    }
  }

  /** A checklist exactly half done never moves a card, whatever its status. */
  lemma ExactHalfStays(c: Card)
    requires 2 * DoneCount(c.items) == |c.items|
    ensures Decide(c) == Stay
  {
    DecideByCounts(c);
  }

  /** The comment of a card moved forward: the time in parentheses. */
  function ModifiedNote(now: string): (r: string)
    ensures |r| == |now| + 11 && r[10..|r| - 1] == now
    ensures r[..10] == "Modified (" && r[|r| - 1] == ')'
  {
    "Modified (" + now + ")"
  }

  /** The comment of a card sent back: the time in parentheses, told apart
      from the forward comment by its first letter. */
  function SentBackNote(now: string): (r: string)
    ensures |r| == |now| + 20 && r[19..|r| - 1] == now
    ensures r[..19] == "Sent for Modified (" && r[|r| - 1] == ')'
    ensures r != ModifiedNote(now)
  {
    "Sent for Modified (" + now + ")"
  }

  /** The fields `checkCardStatus` writes on the card before it emits the
      move: the completion date on completion, the status everywhere, and the
      'Sent for Modified' comment when sending back. */
  function Mark(c: Card, a: Action, now: string): (r: Card)
    ensures r.items == c.items && r.title == c.title && r.locked == c.locked
    ensures a == Decide(c) && a != Stay ==> r.status != c.status
    ensures a == ToDone ==> r == c.(status := Done, completionDate := Some(now))
    ensures a == SendBack ==> r == c.(status := New, comment := Some(SentBackNote(now)))
    ensures a == ToInProcess ==> r == c.(status := InProcess)
    ensures a == Stay ==> r == c
  {
    match a
    case ToDone => c.(status := Done, completionDate := Some(now))
    case SendBack => c.(status := New, comment := Some(SentBackNote(now)))
    case ToInProcess => c.(status := InProcess)
    case Stay => c
  }

  /** The card `addCard` creates: three blank entries, status 'New', unlocked,
      titled with the custom title or, when that is empty (falsy), 'New note'. */
  function NewCard(customTitle: string): (c: Card)
    ensures WellFormed(c) && |c.items| == MinItems
    ensures forall k | 0 <= k < |c.items| :: c.items[k] == BlankItem
    ensures c.status == New && !c.locked && c.comment == None && c.completionDate == None
    ensures customTitle != "" ==> c.title == customTitle
    ensures customTitle == "" ==> c.title == DefaultTitle
    ensures c.title != ""
    ensures DoneCount(c.items) == 0 && Decide(c) == Stay
  {
    var items := [BlankItem, BlankItem, BlankItem];
    assert BlankItem !in Completed(items) && Completed(items) == [];
    Card(if customTitle == "" then DefaultTitle else customTitle, items, New, false, None, None)
  }

  /** `addItem`: appends a blank entry while the checklist has 3 or 4 entries;
      `None` is the alert, and the card is not saved. */
  function AddItem(c: Card): (r: Option<Card>)
    ensures r.Some? <==> MinItems <= |c.items| < MaxItems
    ensures r.Some? ==> r.value == c.(items := c.items + [BlankItem])
    ensures r.Some? ==> WellFormed(r.value)
  {
    if |c.items| < MaxItems && |c.items| >= MinItems then
      Some(c.(items := c.items + [BlankItem]))
    else None
  }

  /** `removeItem`: splices the entry out while more than 3 remain and the card
      is not 'Done'; `None` when the guard fails (nothing is saved). */
  function RemoveItem(c: Card, index: int): (r: Option<Card>)
    ensures r.Some? <==> |c.items| > MinItems && c.status != Done
    ensures r.Some? ==> r.value == c.(items := RemoveAt(c.items, index))
    ensures r.Some? ==> |r.value.items| >= MinItems
    ensures r.Some? && WellFormed(c) ==> WellFormed(r.value)
  {
    if |c.items| > MinItems && !ComponentLocked && c.status != Done then
      Some(c.(items := RemoveAt(c.items, index)))
    else None
  }

  /** `saveItem`: ends editing of one entry unless the card is 'Done'.
      `items[index]` outside the checklist is `undefined` and the write throws,
      so that case changes nothing either. */
  function SaveItem(c: Card, index: int): (r: Option<Card>)
    ensures r.Some? <==> c.status != Done && 0 <= index < |c.items|
    ensures r.Some? ==> |r.value.items| == |c.items| && !r.value.items[index].editing
    ensures r.Some? ==> forall k | 0 <= k < |c.items| && k != index :: r.value.items[k] == c.items[k]
    ensures r.Some? ==> r.value.items[index].completed == c.items[index].completed
    ensures r.Some? ==> r.value.(items := c.items) == c && r.value.items[index] == c.items[index].(editing := false)
  {
    if c.status != Done && !ComponentLocked && 0 <= index < |c.items| then
      Some(c.(items := c.items[index := c.items[index].(editing := false)]))
    else None
  }

  /** `editItem`: reopens one entry for editing unless the card is 'Done'. */
  function EditItem(c: Card, index: int): (r: Option<Card>)
    ensures r.Some? <==> c.status != Done && 0 <= index < |c.items|
    ensures r.Some? ==> |r.value.items| == |c.items| && r.value.items[index].editing
    ensures r.Some? ==> forall k | 0 <= k < |c.items| && k != index :: r.value.items[k] == c.items[k]
    ensures r.Some? ==> r.value.(items := c.items) == c && r.value.items[index] == c.items[index].(editing := true)
  {
    if c.status != Done && !ComponentLocked && 0 <= index < |c.items| then
      Some(c.(items := c.items[index := c.items[index].(editing := true)]))
    else None
  }

  /** The checkbox binding of one entry. */
  function SetCompleted(c: Card, index: nat, value: bool): (r: Card)
    requires index < |c.items|
    ensures |r.items| == |c.items| && r.items[index].completed == value
    ensures r.(items := c.items) == c && r.items[index] == c.items[index].(completed := value)
    ensures forall k | 0 <= k < |c.items| && k != index :: r.items[k] == c.items[k]
    ensures DoneCount(r.items) ==
      DoneCount(c.items) - (if c.items[index].completed then 1 else 0) + (if value then 1 else 0)
  {
    CountAfterUpdate(c.items, index, c.items[index].(completed := value));
    c.(items := c.items[index := c.items[index].(completed := value)])
  }

  /** The text binding of one entry. */
  function SetText(c: Card, index: nat, text: string): (r: Card)
    requires index < |c.items|
    ensures |r.items| == |c.items| && r.items[index].text == text
    ensures r.(items := c.items) == c && r.items[index] == c.items[index].(text := text)
    ensures forall k | 0 <= k < |c.items| && k != index :: r.items[k] == c.items[k]
    ensures DoneCount(r.items) == DoneCount(c.items)
  {
    CountAfterUpdate(c.items, index, c.items[index].(text := text));
    c.(items := c.items[index := c.items[index].(text := text)])
  }

  /** Replacing one entry changes the number of checked entries by what the
      old and the new entry contribute, and by nothing else. */
  lemma {:induction false} CountAfterUpdate(items: seq<Item>, index: nat, x: Item)
    requires index < |items|
    ensures DoneCount(items[index := x]) ==
      DoneCount(items) - (if items[index].completed then 1 else 0) + (if x.completed then 1 else 0)
  {
    var u := items[index := x];
    if index == 0 {
      assert u[1..] == items[1..];
    } else {
      assert u[1..] == items[1..][index - 1 := x];
      CountAfterUpdate(items[1..], index - 1, x);
    }
  }

  /** A blank entry at the end adds nothing to the number of checked entries. */
  lemma {:induction false} CountAppendBlank(items: seq<Item>)
    ensures DoneCount(items + [BlankItem]) == DoneCount(items)
  {
    if items == [] {
      assert [] + [BlankItem] == [BlankItem];
    } else {
      assert (items + [BlankItem])[1..] == items[1..] + [BlankItem];
      CountAppendBlank(items[1..]);
    }
  }

  /** Adding an entry and removing the entry just added gives back the card. */
  lemma RemoveUndoesAdd(c: Card)
    requires AddItem(c).Some? && c.status != Done
    ensures RemoveItem(AddItem(c).value, |c.items|) == Some(c)
  {
    RemoveAfterPush(c.items, BlankItem);
  }

  /** Ending the editing of an entry that was being edited, then reopening it,
      gives back the card. */
  lemma EditUndoesSave(c: Card, index: int)
    requires SaveItem(c, index).Some? && c.items[index].editing
    ensures EditItem(SaveItem(c, index).value, index) == Some(c)
  {
    assert c.items[index := c.items[index].(editing := false)][index := c.items[index]] == c.items;
  }

  /** Saving or reopening an entry leaves the decision `checkCardStatus` makes
      unchanged: only the `completed` flags count. */
  lemma EditingKeepsDecision(c: Card, index: int)
    requires 0 <= index < |c.items|
    ensures SaveItem(c, index).Some? ==> Decide(SaveItem(c, index).value) == Decide(c)
    ensures EditItem(c, index).Some? ==> Decide(EditItem(c, index).value) == Decide(c)
  {
    CountAfterUpdate(c.items, index, c.items[index].(editing := false));
    CountAfterUpdate(c.items, index, c.items[index].(editing := true));
    DecideByCounts(c);
    if SaveItem(c, index).Some? {
      DecideByCounts(SaveItem(c, index).value);
    }
    if EditItem(c, index).Some? {
      DecideByCounts(EditItem(c, index).value);
    }
  }

  /** `addItem` accepts a 'Done' card but `removeItem` refuses it, so an
      entry added to a 'Done' card can never be removed again. */
  lemma DoneCardKeepsAddedEntry(c: Card, index: int)
    requires c.status == Done && AddItem(c).Some?
    ensures RemoveItem(AddItem(c).value, index).None?
  {
  }

  /** Three sample cards: two of three checked on a
      'New' card moves it forward, one of three on an 'In process' card sends
      it back, and three of three on an 'In process' card completes it. */
  lemma StatusScenarios(now: string)
    ensures Decide(Card("a", [Item("", true, true), Item("", true, true), Item("", false, true)],
                        New, false, None, None)) == ToInProcess
    ensures Decide(Card("b", [Item("", true, true), Item("", false, true), Item("", false, true)],
                        InProcess, false, None, None)) == SendBack
    ensures Decide(Card("c", [Item("", true, true), Item("", true, true), Item("", true, true)],
                        InProcess, false, None, None)) == ToDone
  {
    var a := Card("a", [Item("", true, true), Item("", true, true), Item("", false, true)], New, false, None, None);
    var b := Card("b", [Item("", true, true), Item("", false, true), Item("", false, true)], InProcess, false, None, None);
    var c := Card("c", [Item("", true, true), Item("", true, true), Item("", true, true)], InProcess, false, None, None);
    assert DoneCount(a.items) == 2;
    assert DoneCount(b.items) == 1;
    assert DoneCount(c.items) == 3;
    DecideByCounts(a);
    DecideByCounts(b);
    DecideByCounts(c);
  }
}
