/** The undo/redo history (src/lib/utils/history.ts): a bounded list of
    application snapshots and a cursor into it.  The class's private fields
    become an immutable value; every operation returns the next value, and
    the two queries that mutate (`getUndoState`, `getRedoState`) return the
    next value together with the snapshot they hand out.  Snapshots are
    values, so the deep clone is the identity. */
module History {
  import opened Wrappers
  import opened Records
  import opened Schema

  /** `AppState`: everything the undo history records. */
  datatype AppState = AppState(
    costs: Record<IngredientDoc>,
    compoundIngredients: Record<CompoundIngredientDoc>,
    recipes: Record<RecipeDoc>,
    customUnitLabels: Record<string>,
    unitConversions: seq<UnitConversion>)

  /** `maxHistorySize`. */
  const MaxHistorySize: nat := 50

  /** The fields `history` and `currentIndex`. */
  datatype History = History(entries: seq<AppState>, currentIndex: int)

  /** What every reachable history satisfies: at most 50 entries, the cursor
      on an entry, and the cursor at -1 exactly when there are none. */
  predicate Valid(h: History) {
    && |h.entries| <= MaxHistorySize
    && -1 <= h.currentIndex < |h.entries|
    && (h.currentIndex == -1 <==> h.entries == [])
  }

  /** The states the manager can be in; every operation below stays inside. */
  type HistoryManager = h: History | Valid(h) witness History([], -1)

  /** A fresh manager, as constructed. */
  const Empty: HistoryManager := History([], -1)

  /** `canUndo`: exactly when `getUndoState` would hand out a snapshot. */
  function CanUndo(h: HistoryManager): (b: bool)
    ensures b <==> GetUndoState(h).state.Some?
  {
    h.currentIndex > 0
  }

  /** `canRedo`: exactly when `getRedoState` would hand out a snapshot. */
  function CanRedo(h: HistoryManager): (b: bool)
    ensures b <==> GetRedoState(h).state.Some?
  {
    h.currentIndex < |h.entries| - 1
  }

  /** The manager after a call, and the snapshot the call returned (`None`
      for `null`). */
  datatype Step = Step(history: HistoryManager, state: Option<AppState>)

  /** `saveState`: drop the entries after the cursor, append the snapshot,
      and drop the oldest entry when that makes 51.  The cursor ends on the
      new snapshot, so there is nothing to redo. */
  function SaveState(h: HistoryManager, s: AppState): (r: HistoryManager)
    ensures |r.entries| > 0 && r.entries[|r.entries| - 1] == s
    ensures r.currentIndex == |r.entries| - 1 && !CanRedo(r)
    ensures var kept := h.entries[..h.currentIndex + 1];
            |kept| < MaxHistorySize ==> r.entries == kept + [s]
    ensures var kept := h.entries[..h.currentIndex + 1];
            |kept| == MaxHistorySize ==> r.entries == kept[1..] + [s]
  {
    var entries := if h.currentIndex < |h.entries| - 1 then h.entries[..h.currentIndex + 1] else h.entries;
    var pushed := entries + [s];
    if |pushed| > MaxHistorySize then History(pushed[1..], h.currentIndex)
    else History(pushed, h.currentIndex + 1)
  }

  /** `getUndoState`: at the first entry (or with none) nothing changes and
      `null` comes back; otherwise the cursor steps back and the entry it
      lands on comes back.  The stored list is never touched. */
  function GetUndoState(h: HistoryManager): (r: Step)
    ensures r.history.entries == h.entries
    ensures h.currentIndex <= 0 ==> r == Step(h, None)
    ensures h.currentIndex > 0 ==> r.history.currentIndex == h.currentIndex - 1 &&
                                   r.state == Some(h.entries[r.history.currentIndex])
  {
    if h.currentIndex <= 0 then Step(h, None)
    else
      var moved := History(h.entries, h.currentIndex - 1);
      Step(moved, Some(h.entries[moved.currentIndex]))
  }

  /** `getRedoState`: at the last entry nothing changes and `null` comes
      back; otherwise the cursor steps forward and the entry it lands on
      comes back.  The stored list is never touched. */
  function GetRedoState(h: HistoryManager): (r: Step)
    ensures r.history.entries == h.entries
    ensures h.currentIndex >= |h.entries| - 1 ==> r == Step(h, None)
    ensures h.currentIndex < |h.entries| - 1 ==> r.history.currentIndex == h.currentIndex + 1 &&
                                                 r.state == Some(h.entries[r.history.currentIndex])
  {
    if h.currentIndex >= |h.entries| - 1 then Step(h, None)
    else
      var moved := History(h.entries, h.currentIndex + 1);
      Step(moved, Some(h.entries[moved.currentIndex]))
  }

  /** `initialize`: the one snapshot, current; neither undo nor redo. */
  function Initialize(s: AppState): (r: HistoryManager)
    ensures r.entries == [s] && r.currentIndex == 0
    ensures !CanUndo(r) && !CanRedo(r)
  {
    History([s], 0)
  }

  /** `clear`: no entries; neither undo nor redo. */
  function Clear(): (r: HistoryManager)
    ensures r.entries == [] && r.currentIndex == -1
    ensures !CanUndo(r) && !CanRedo(r)
  {
    Empty
  }

  /** An undo followed by a redo puts the cursor back and hands out the
      snapshot that was current before the undo. */
  lemma UndoThenRedo(h: HistoryManager)
    requires CanUndo(h)
    ensures GetRedoState(GetUndoState(h).history) == Step(h, Some(h.entries[h.currentIndex]))
  {
  }

  /** A redo followed by an undo puts the cursor back and hands out the
      snapshot that was current before the redo. */
  lemma RedoThenUndo(h: HistoryManager)
    requires CanRedo(h)
    ensures GetUndoState(GetRedoState(h).history) == Step(h, Some(h.entries[h.currentIndex]))
  {
  }

  /** A call of `getUndoState` or `getRedoState`. */
  datatype Move = Undo | Redo

  /** The manager after a sequence of such calls. */
  function Navigate(h: HistoryManager, moves: seq<Move>): (r: HistoryManager)
    decreases |moves|
  {
    if moves == [] then h
    else
      var prev := Navigate(h, moves[..|moves| - 1]);
      match moves[|moves| - 1]
      case Undo => GetUndoState(prev).history
      case Redo => GetRedoState(prev).history
  }

  /** Undo and redo only move the cursor: no sequence of them changes the
      stored list. */
  lemma {:induction false} NavigateKeepsEntries(h: HistoryManager, moves: seq<Move>)
    ensures Navigate(h, moves).entries == h.entries
    decreases |moves|
  {
    if moves != [] {
      NavigateKeepsEntries(h, moves[..|moves| - 1]);
    }
  }

  /** The last `n` elements of `xs`, or all of them when there are fewer. */
  function LastN<T>(xs: seq<T>, n: nat): (r: seq<T>)
    ensures |r| == if |xs| <= n then |xs| else n
  {
    if |xs| <= n then xs else xs[|xs| - n..]
  }

  /** Saving each state in turn. */
  function SaveAll(h: HistoryManager, ss: seq<AppState>): HistoryManager
    decreases |ss|
  {
    if ss == [] then h
    else SaveState(SaveAll(h, ss[..|ss| - 1]), ss[|ss| - 1])
  }

  /** Keeping the last `n` of a list and then of that list extended by one
      is keeping the last `n` of the extended list. */
  lemma LastNAppend<T>(xs: seq<T>, x: T, n: nat)
    requires n > 0
    ensures LastN(LastN(xs, n) + [x], n) == LastN(xs + [x], n)
  {
    if |xs| > n {
      assert LastN(xs, n) + [x] == (xs + [x])[|xs| - n..];
    }
  }

  /** A save with the cursor on the newest entry keeps the 50 most recent
      snapshots. */
  lemma SaveAtEnd(h: HistoryManager, s: AppState)
    requires h.currentIndex == |h.entries| - 1
    ensures SaveState(h, s).entries == LastN(h.entries + [s], MaxHistorySize)
  {
    assert h.entries[..h.currentIndex + 1] == h.entries;
  }

  /** From a cursor on the newest entry, saving a run of states keeps the 50
      most recent snapshots, oldest first, with the cursor on the newest. */
  lemma {:induction false} SaveAllKeepsNewest(h: HistoryManager, ss: seq<AppState>)
    requires h.currentIndex == |h.entries| - 1
    ensures SaveAll(h, ss).entries == LastN(h.entries + ss, MaxHistorySize)
    ensures SaveAll(h, ss).currentIndex == |SaveAll(h, ss).entries| - 1
    decreases |ss|
  {
    if ss == [] {
      assert h.entries + ss == h.entries;
    } else {
      var n := |ss| - 1;
      SaveAllKeepsNewest(h, ss[..n]);
      var prev := SaveAll(h, ss[..n]);
      SaveAtEnd(prev, ss[n]);
      LastNAppend(h.entries + ss[..n], ss[n], MaxHistorySize);
      assert h.entries + ss[..n] + [ss[n]] == h.entries + ss;
    }
  }

  /** The test's scenario: one initial state and 55 saves leave 50 entries. */
  lemma SaveCapExample(initial: AppState, ss: seq<AppState>)
    requires |ss| == 55
    ensures |SaveAll(Initialize(initial), ss).entries| == MaxHistorySize
  {
    SaveAllKeepsNewest(Initialize(initial), ss);
  }

  /** Undoing twice from the fourth of four entries and saving leaves three
      entries with the new one current. */
  lemma TrimAfterUndoExample(s0: AppState, s1: AppState, s2: AppState, s3: AppState, s4: AppState)
    ensures var h := SaveAll(Initialize(s0), [s1, s2, s3]);
            var back := GetUndoState(GetUndoState(h).history).history;
            SaveState(back, s4) == History([s0, s1, s4], 2)
  {
    var ss := [s1, s2, s3];
    var h0 := Initialize(s0);
    assert ss[..2] == [s1, s2] && ss[..2][..1] == [s1] && ss[..2][..1][..0] == [];
    assert SaveAll(h0, [s1]) == SaveState(h0, s1) == History([s0, s1], 1);
    assert SaveAll(h0, [s1, s2]) == SaveState(History([s0, s1], 1), s2) == History([s0, s1, s2], 2);
    assert SaveAll(h0, ss) == SaveState(History([s0, s1, s2], 2), s3) == History([s0, s1, s2, s3], 3);
  }
}
