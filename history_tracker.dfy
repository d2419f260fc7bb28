/**
 * Undo/redo history of an object's successive values.
 *
 * The tracker keeps a list of recorded snapshots and the position of the
 * current one. Recording a value discards the snapshots after the current
 * one (the redo branch), appends the value, and then drops the oldest
 * snapshots until at most `maxCount` remain. Snapshots are attribute
 * records compared by value, so deep cloning and deep equality are plain
 * value copies and `==` here.
 */
module History {
  import opened JsValues

  /** The list of snapshots and the position of the current one. */
  datatype Timeline = Timeline(entries: seq<Attributes>, index: int)
  {
    /** The shapes a timeline takes: a valid position, or an empty list at position -1. */
    predicate Wf()
    {
      (0 <= index < |entries|) || (entries == [] && index == -1)
    }

    /**
     * The invariant for a bound of `maxCount`: at most `maxCount` snapshots,
     * except for the single initial one, which is kept even when the bound is
     * 0; with a positive bound the cursor is always on a snapshot.
     */
    predicate Inv(maxCount: nat)
    {
      Wf() && (|entries| <= maxCount || |entries| == 1) &&
      (maxCount >= 1 ==> 0 <= index < |entries|)
    }

    predicate CanUndo()
    {
      index != 0
    }

    predicate CanRedo()
    {
      index != |entries| - 1
    }

    /** The current snapshot; absent when the list is empty. */
    function Current(): Option<Attributes>
    {
      if 0 <= index < |entries| then Some(entries[index]) else None
    }

    /** Step back one snapshot and return it, or stay and return nothing at the start. */
    function Undo(): (Timeline, Option<Attributes>)
      requires Wf()
    {
      if index > 0 then (Timeline(entries, index - 1), Some(entries[index - 1]))
      else (this, None)
    }

    /** Step forward one snapshot and return it, or stay and return nothing at the end. */
    function Redo(): (Timeline, Option<Attributes>)
      requires Wf()
    {
      if index + 1 < |entries| then (Timeline(entries, index + 1), Some(entries[index + 1]))
      else (this, None)
    }

    /**
     * Keep the snapshots up to the current one, append `x` as the new
     * current one, then drop the oldest ones beyond `maxCount`.
     */
    function Record(x: Attributes, maxCount: nat): Timeline
      requires Wf()
    {
      var kept := entries[..index + 1] + [x];
      var drop := if |kept| > maxCount then |kept| - maxCount else 0;
      Timeline(kept[drop..], index + 1 - drop)
    }

    /**
     * Whether the current snapshot differs from `initial`; with an
     * attribute, whether the history holds more than one snapshot and that
     * attribute differs.
     */
    predicate HasChanged(initial: Attributes, attribute: Option<string>)
      requires Wf()
    {
      match attribute
      case None => Current() != Some(initial)
      case Some(a) => |entries| > 1 && Get(Current().value, a) != Get(initial, a)
    }
  }

  /** A fresh history: the initial value and nothing else. */
  function Start(initial: Attributes): (t: Timeline)
    ensures forall maxCount: nat :: t.Inv(maxCount)
    ensures t.Current() == Some(initial)
    ensures !t.CanUndo() && !t.CanRedo()
    ensures !t.HasChanged(initial, None)
    ensures forall a :: !t.HasChanged(initial, Some(a))
  {
    Timeline([initial], 0)
  }

  /** Recording keeps the invariant for the bound it is given. */
  lemma RecordKeepsInvariant(t: Timeline, x: Attributes, maxCount: nat)
    requires t.Inv(maxCount)
    ensures t.Record(x, maxCount).Inv(maxCount)
  {
  }

  /**
   * The recorded value becomes the current one and nothing is left to redo;
   * the history holds the snapshots up to the old current one plus the new
   * one, capped at `maxCount`. A bound of 0 empties the history instead.
   */
  lemma RecordMakesCurrent(t: Timeline, x: Attributes, maxCount: nat)
    requires t.Wf()
    ensures maxCount > 0 ==>
      var r := t.Record(x, maxCount);
      r.Current() == Some(x) && !r.CanRedo() &&
      |r.entries| == (if t.index + 2 <= maxCount then t.index + 2 else maxCount)
    ensures maxCount == 0 ==> t.Record(x, maxCount) == Timeline([], -1)
  {
  }

  /**
   * Only the oldest snapshots are dropped: every snapshot the history keeps
   * before the new one was, in the same order, among those up to the old
   * current position, and the most recent of those are the ones kept.
   */
  lemma RecordDropsOldest(t: Timeline, x: Attributes, maxCount: nat)
    requires t.Wf() && maxCount > 0
    ensures
      var r := t.Record(x, maxCount);
      var n := |r.entries| - 1;
      n <= t.index + 1 &&
      forall k :: 0 <= k < n ==> r.entries[k] == t.entries[t.index + 1 - n + k]
  {
  }

  /** With room for two snapshots, undoing a record returns the value that was current before it. */
  lemma RecordThenUndo(t: Timeline, x: Attributes, maxCount: nat)
    requires t.Wf() && maxCount >= 2 && t.index >= 0
    ensures t.Record(x, maxCount).Wf()
    ensures t.Record(x, maxCount).Undo().1 == t.Current()
    ensures t.Record(x, maxCount).Undo().0.Current() == t.Current()
  {
  }

  /** Undo then redo comes back to the same timeline and returns the value undone. */
  lemma UndoThenRedo(t: Timeline)
    requires t.Wf() && t.Undo().1.Some?
    ensures t.Undo().0.Wf()
    ensures t.Undo().0.Redo() == (t, t.Current())
  {
  }

  /** Redo then undo comes back to the same timeline and returns the value redone from. */
  lemma RedoThenUndo(t: Timeline)
    requires t.Wf() && t.Redo().1.Some?
    ensures t.Redo().0.Wf()
    ensures t.Redo().0.Undo() == (t, t.Current())
  {
  }

  /**
   * The predicates tell the truth about undo and redo, with one exception:
   * an emptied history (bound 0) reports that it can undo, yet undo
   * returns nothing.
   */
  lemma CanUndoRedoAgree(t: Timeline)
    requires t.Wf()
    ensures t.index >= 0 ==> (t.CanUndo() <==> t.Undo().1.Some?)
    ensures t.entries == [] ==> t.CanUndo() && t.Undo().1.None?
    ensures t.CanRedo() <==> t.Redo().1.Some?
  {
  }

  /** Undo and redo only move the position; they keep the invariant. */
  lemma UndoRedoKeepInvariant(t: Timeline, maxCount: nat)
    requires t.Inv(maxCount)
    ensures t.Undo().0.Inv(maxCount) && t.Undo().0.entries == t.entries
    ensures t.Redo().0.Inv(maxCount) && t.Redo().0.entries == t.entries
  {
  }

  /**
   * Reset records the initial value: afterwards nothing has changed, and
   * with room for two snapshots the reset itself can be undone.
   */
  lemma ResetRestoresInitial(t: Timeline, initial: Attributes, maxCount: nat)
    requires t.Wf() && maxCount > 0
    ensures t.Record(initial, maxCount).Wf()
    ensures !t.Record(initial, maxCount).HasChanged(initial, None)
    ensures maxCount >= 2 && t.index >= 0 ==> t.Record(initial, maxCount).Undo().1 == t.Current()
  {
  }

  /** An attribute that changed means the object changed. */
  lemma AttributeChangeIsChange(t: Timeline, initial: Attributes, a: string)
    requires t.Wf()
    requires t.HasChanged(initial, Some(a))
    ensures t.HasChanged(initial, None)
  {
  }

  /**
   * The tracker: `history` and `historyIndex` change in place; the initial
   * value and the bound are fixed at construction.
   */
  class HistoryTracker {
    const initialData: Attributes
    const maxCount: nat
    var history: seq<Attributes>
    var historyIndex: int

    function State(): Timeline
      reads this
    {
      Timeline(history, historyIndex)
    }

    ghost predicate Valid()
      reads this
    {
      State().Inv(maxCount)
    }

    constructor (initialData: Attributes, maxCount: nat)
      ensures this.initialData == initialData && this.maxCount == maxCount
      ensures State() == Start(initialData)
      ensures Valid()
    {
      this.initialData := initialData;
      this.maxCount := maxCount;
      history := [initialData];
      historyIndex := 0;
    }

    method CanUndo() returns (r: bool)
      requires Valid()
      ensures r == State().CanUndo()
    {
      r := historyIndex != 0;
    }

    method CanRedo() returns (r: bool)
      requires Valid()
      ensures r == State().CanRedo()
    {
      r := historyIndex != |history| - 1;
    }

    method Undo() returns (r: Option<Attributes>)
      requires Valid()
      modifies this
      ensures Valid()
      ensures (State(), r) == old(State()).Undo()
    {
      if historyIndex > 0 {
        historyIndex := historyIndex - 1;
        r := Some(history[historyIndex]);
      } else {
        r := None;
      }
    }

    method Redo() returns (r: Option<Attributes>)
      requires Valid()
      modifies this
      ensures Valid()
      ensures (State(), r) == old(State()).Redo()
    {
      if historyIndex + 1 < |history| {
        historyIndex := historyIndex + 1;
        r := Some(history[historyIndex]);
      } else {
        r := None;
      }
    }

    method Current() returns (r: Option<Attributes>)
      requires Valid()
      ensures r == State().Current()
    {
      if 0 <= historyIndex < |history| {
        r := Some(history[historyIndex]);
      } else {
        r := None;
      }
    }

    /** Cut the redo branch, append the value, then shift out the oldest snapshots. */
    method Record(newData: Attributes)
      requires Valid()
      modifies this
      ensures Valid()
      ensures State() == old(State()).Record(newData, maxCount)
    {
      ghost var before := State();
      if historyIndex + 1 < |history| {
        history := history[..historyIndex + 1];
      }
      assert history == before.entries[..before.index + 1];
      history := history + [newData];
      historyIndex := historyIndex + 1;
      ShiftOldest(maxCount);
      RecordKeepsInvariant(before, newData, maxCount);
    }

    /** Shift snapshots off the front, moving the cursor along, until at most `undoCount` remain. */
    method ShiftOldest(undoCount: nat)
      modifies this
      ensures var drop := if |old(history)| > undoCount then |old(history)| - undoCount else 0;
        history == old(history)[drop..] && historyIndex == old(historyIndex) - drop
    {
      ghost var kept := history;
      ghost var dropped := 0;
      while |history| > undoCount
        invariant 0 <= dropped <= |kept|
        invariant history == kept[dropped..]
        invariant historyIndex == old(historyIndex) - dropped
        invariant dropped == 0 || |kept| - dropped >= undoCount
      {
        history := history[1..];
        historyIndex := historyIndex - 1;
        dropped := dropped + 1;
      }
    }

    /** Record the initial value again, so that the reset can itself be undone. */
    method Reset() returns (r: Attributes)
      requires Valid()
      modifies this
      ensures Valid()
      ensures r == initialData
      ensures State() == old(State()).Record(initialData, maxCount)
    {
      Record(initialData);
      r := initialData;
    }

    method HasChanged(attribute: Option<string>) returns (r: bool)
      requires Valid()
      ensures r == State().HasChanged(initialData, attribute)
    {
      var current := Current();
      match attribute
      case None =>
        r := current != Some(initialData);
      case Some(a) =>
        r := |history| > 1 && Get(current.value, a) != Get(initialData, a);
    }
  }
}
