/** The session playlist: a list of items and a cursor at the one that plays. */
module Queues {
  import opened Wrappers

  /** Cursor -1 means that nothing plays. */
  datatype QueueState<T> = QueueState(items: seq<T>, cursor: int)
  {
    predicate InRange() {
      -1 <= cursor < |items|
    }

    function Head(): Option<T> {
      if 0 <= cursor < |items| then Some(items[cursor]) else None
    }

    function Append(it: T): QueueState<T> {
      QueueState(items + [it], if cursor == -1 then |items| else cursor)
    }

    function Remove(idx: int): QueueState<T> {
      if idx < 0 || idx >= |items| then this
      else
        var rest := items[..idx] + items[idx + 1..];
        if rest == [] then QueueState(rest, -1)
        else if cursor == idx then QueueState(rest, if idx >= |rest| then |rest| - 1 else cursor)
        else QueueState(rest, if cursor > idx then cursor - 1 else cursor)
    }

    function Replace(newItems: seq<T>): QueueState<T> {
      if newItems == [] then QueueState([], -1)
      else
        var clamped := if cursor >= |newItems| then |newItems| - 1 else cursor;
        QueueState(newItems, if clamped == -1 then 0 else clamped)
    }

    /** The next item, or -1 past the end. */
    function Advance(): QueueState<T> {
      this.(cursor := if cursor < 0 || cursor + 1 >= |items| then -1 else cursor + 1)
    }

    /** The previous item; at the first item the queue goes idle. */
    function Rewind(): QueueState<T> {
      this.(cursor := if cursor <= 0 || |items| == 0 then -1 else cursor - 1)
    }

    function SetHead(item: T): QueueState<T> {
      if 0 <= cursor < |items| then this.(items := items[cursor := item]) else this
    }
  }

  class Queue<T> {
    var items: seq<T>
    var cursor: int

    constructor ()
      ensures State() == QueueState([], -1)
    {
      items, cursor := [], -1;
    }

    function State(): QueueState<T>
      reads this
    {
      QueueState(items, cursor)
    }

    method UpdateCursorAfterMutation()
      modifies `cursor
      ensures cursor == (if |items| == 0 then -1
                         else if old(cursor) >= |items| then |items| - 1
                         else if old(cursor) == -1 then 0 else old(cursor))
    {
      if |items| == 0 {
        cursor := -1;
        return;
      }
      if cursor >= |items| {
        cursor := |items| - 1;
      }
      if cursor == -1 && |items| > 0 {
        cursor := 0;
      }
    }

    method ReplaceItems(newItems: seq<T>)
      modifies this
      ensures State() == old(State()).Replace(newItems)
    {
      items := newItems;
      UpdateCursorAfterMutation();
    }

    method Append(it: T)
      modifies this
      ensures State() == old(State()).Append(it)
    {
      items := items + [it];
      if cursor == -1 && |items| > 0 {
        cursor := |items| - 1;
      }
    }

    method Remove(idx: int) returns (removed: bool)
      modifies this
      ensures State() == old(State()).Remove(idx)
      ensures removed <==> 0 <= idx < |old(items)|
    {
      if idx < 0 || idx >= |items| {
        return false;
      }
      items := items[..idx] + items[idx + 1..];
      if |items| == 0 {
        cursor := -1;
      } else if cursor == idx {
        if idx >= |items| {
          cursor := |items| - 1;
        }
      } else if cursor > idx {
        cursor := cursor - 1;
      }
      return true;
    }

    method Clear()
      modifies this
      ensures State() == QueueState([], -1)
    {
      items := [];
      cursor := -1;
    }

    method Head() returns (item: Option<T>)
      ensures item == State().Head()
    {
      if cursor < 0 || cursor >= |items| {
        return None;
      }
      return Some(items[cursor]);
    }

    method AdvanceCursor() returns (item: Option<T>)
      modifies `cursor
      ensures State() == old(State()).Advance() && item == State().Head()
    {
      if cursor < 0 || cursor + 1 >= |items| {
        cursor := -1;
        return None;
      }
      cursor := cursor + 1;
      return Some(items[cursor]);
    }

    method RewindCursor() returns (item: Option<T>)
      requires State().InRange()
      modifies `cursor
      ensures State() == old(State()).Rewind() && item == State().Head()
    {
      if cursor <= 0 || |items| == 0 {
        cursor := -1;
        return None;
      }
      cursor := cursor - 1;
      return Some(items[cursor]);
    }

    method SetItemAtCursor(item: T) returns (ok: bool)
      modifies `items
      ensures State() == old(State()).SetHead(item)
      ensures ok <==> old(State()).Head().Some?
    {
      if cursor >= 0 && cursor < |items| {
        items := items[cursor := item];
        return true;
      }
      return false;
    }
  }

  // ----- every operation keeps the cursor in range -----

  /** The operations, as one step of a run. */
  datatype QueueOp<T> =
    | OpAppend(item: T) | OpRemove(idx: int) | OpReplace(items: seq<T>) | OpClear
    | OpAdvance | OpRewind | OpSetHead(item: T)

  function Step<T>(q: QueueState<T>, op: QueueOp<T>): QueueState<T> {
    match op
    case OpAppend(item) => q.Append(item)
    case OpRemove(idx) => q.Remove(idx)
    case OpReplace(items) => q.Replace(items)
    case OpClear => QueueState([], -1)
    case OpAdvance => q.Advance()
    case OpRewind => q.Rewind()
    case OpSetHead(item) => q.SetHead(item)
  }

  function Run<T>(q: QueueState<T>, ops: seq<QueueOp<T>>): QueueState<T> {
    if ops == [] then q else Step(Run(q, ops[..|ops| - 1]), ops[|ops| - 1])
  }

  lemma StepKeepsRange<T>(q: QueueState<T>, op: QueueOp<T>)
    requires q.InRange()
    ensures Step(q, op).InRange()
  {
    match op
    case OpRemove(idx) =>
      assert 0 <= idx < |q.items| ==> |q.items[..idx] + q.items[idx + 1..]| == |q.items| - 1;
    case _ =>
  }

  lemma {:induction false} CursorStaysInRange<T>(q: QueueState<T>, ops: seq<QueueOp<T>>)
    requires q.InRange()
    ensures Run(q, ops).InRange()
  {
    if ops != [] {
      CursorStaysInRange(q, ops[..|ops| - 1]);
      StepKeepsRange(Run(q, ops[..|ops| - 1]), ops[|ops| - 1]);
    }
  }

  // ----- the cursor follows its item -----

  /** Where a surviving position lands when position `idx` is removed. */
  function Shift(i: int, idx: int): int {
    if i > idx then i - 1 else i
  }

  /**
   Items are tracked by position, so that equal items stay apart: removing another position moves
   the cursor along with the item it points at.
   */
  lemma RemoveElsewhereKeepsHead<T>(q: QueueState<T>, idx: int)
    requires q.InRange() && 0 <= idx < |q.items| && idx != q.cursor && q.cursor != -1
    ensures q.Remove(idx).cursor == Shift(q.cursor, idx)
    ensures q.Remove(idx).Head() == q.Head()
    ensures forall i :: 0 <= i < |q.items| && i != idx ==> q.Remove(idx).items[Shift(i, idx)] == q.items[i]
  {
  }

  /** Removing the current item plays its successor, or the new last item, or nothing. */
  lemma RemoveHeadPlaysSuccessor<T>(q: QueueState<T>)
    requires q.InRange() && q.cursor != -1
    ensures q.Remove(q.cursor).Head() ==
            if q.cursor + 1 < |q.items| then Some(q.items[q.cursor + 1])
            else if |q.items| > 1 then Some(q.items[|q.items| - 2])
            else None
  {
  }

  /** Appending leaves the current item alone, and starts the new one only if nothing plays. */
  lemma AppendKeepsHead<T>(q: QueueState<T>, it: T)
    requires q.InRange()
    ensures q.Append(it).Head() == if q.Head().Some? then q.Head() else Some(it)
    ensures q.Head().Some? ==> q.Append(it).cursor == q.cursor
  {
  }

  /** Rewinding undoes advancing exactly when advancing did not run off the end. */
  lemma RewindUndoesAdvanceExactlyWhen<T>(q: QueueState<T>)
    requires q.InRange()
    ensures q.Advance().Rewind() == q <==> q.Advance().Head().Some? || q.Head().None?
  {
  }

  // ----- where items land, and where the cursor goes -----

  /** A new item lands behind all others, which stay where they are. */
  lemma AppendLandsLast<T>(q: QueueState<T>, it: T)
    ensures |q.Append(it).items| == |q.items| + 1 && q.Append(it).items[|q.items|] == it
    ensures forall i :: 0 <= i < |q.items| ==> q.Append(it).items[i] == q.items[i]
    ensures q.Append(it).cursor == if q.cursor == -1 then |q.items| else q.cursor
  {
  }

  /** Whatever plays, a removal takes one position out and leaves all other items, in order. */
  lemma RemoveLeavesOthers<T>(q: QueueState<T>, idx: int)
    requires q.InRange() && 0 <= idx < |q.items|
    ensures |q.Remove(idx).items| == |q.items| - 1
    ensures forall i :: 0 <= i < |q.items| && i != idx ==> q.Remove(idx).items[Shift(i, idx)] == q.items[i]
    ensures q.cursor == -1 ==> q.Remove(idx).cursor == -1
    ensures q.cursor == idx ==> q.Remove(idx).cursor == if idx == |q.items| - 1 then idx - 1 else idx
  {
  }

  lemma RemoveOutOfRangeIsRefused<T>(q: QueueState<T>, idx: int)
    requires idx < 0 || |q.items| <= idx
    ensures q.Remove(idx) == q
  {
  }

  /** A new list keeps the cursor where it still reaches, else it moves to the last item; an idle queue starts. */
  lemma ReplaceKeepsCursorWhereItReaches<T>(q: QueueState<T>, newItems: seq<T>)
    requires q.InRange()
    ensures q.Replace(newItems).items == newItems
    ensures 0 <= q.cursor < |newItems| ==> q.Replace(newItems).cursor == q.cursor
    ensures newItems != [] && |newItems| <= q.cursor ==> q.Replace(newItems).cursor == |newItems| - 1
    ensures newItems != [] && q.cursor == -1 ==> q.Replace(newItems).cursor == 0
    ensures newItems == [] ==> q.Replace(newItems).cursor == -1
  {
  }

  /** Advancing plays the next item and rewinding the one before, if there is one; else nothing plays. */
  lemma MovesPlayNeighbours<T>(q: QueueState<T>)
    requires q.InRange() && q.cursor != -1
    ensures q.Advance().Head() == if q.cursor + 1 < |q.items| then Some(q.items[q.cursor + 1]) else None
    ensures q.Rewind().Head() == if q.cursor > 0 then Some(q.items[q.cursor - 1]) else None
    ensures q.Advance().items == q.items == q.Rewind().items
    ensures q.Advance().Head() == None ==> q.Advance().cursor == -1
    ensures q.Rewind().Head() == None ==> q.Rewind().cursor == -1
  {
  }

  /** A queue in which nothing plays stays so, whichever way it is moved. */
  lemma IdleStaysIdle<T>(q: QueueState<T>)
    requires q.cursor == -1
    ensures q.Advance() == q == q.Rewind()
  {
  }

  lemma SetHeadOverwritesOnlyHead<T>(q: QueueState<T>, it: T)
    requires q.InRange()
    ensures q.SetHead(it).cursor == q.cursor && |q.SetHead(it).items| == |q.items|
    ensures q.SetHead(it).Head() == if q.cursor == -1 then None else Some(it)
    ensures forall i :: 0 <= i < |q.items| && i != q.cursor ==> q.SetHead(it).items[i] == q.items[i]
  {
  }
}
