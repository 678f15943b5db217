/** The undo history of the store (src/store.js:50-56, 94-100, 128-134,
    178-215, 391-398): the current case file, the snapshots taken before each
    change, and the position `historyIndex`. A change records the case file
    as it was BEFORE the change, so `history[historyIndex]` is the state
    before the latest change, and undo lands on the state before the one
    before. */
module History {
  import opened CaseFiles

  datatype Timeline = Timeline(caseFile: CaseFile, history: seq<CaseFile>, historyIndex: int)

  /** The shape every action keeps: the index points into the history, and
      is -1 exactly when the history is empty. */
  predicate WellFormed(t: Timeline) {
    -1 <= t.historyIndex < |t.history| && (t.historyIndex == -1 <==> t.history == [])
  }

  /** The store as it starts and after `clearAllData`. */
  const Initial := Timeline([], [], -1)

  /** A change to `next` by add, update or delete: the history up to the
      current position is kept, the rest dropped, and the old case file
      appended as the new last snapshot. */
  function Commit(t: Timeline, next: CaseFile): (r: Timeline)
    requires WellFormed(t)
    ensures WellFormed(r) && r.caseFile == next
    ensures |r.history| == t.historyIndex + 2 && r.historyIndex == |r.history| - 1
    ensures r.history[..t.historyIndex + 1] == t.history[..t.historyIndex + 1]
    ensures r.history[r.historyIndex] == t.caseFile
  {
    var h := t.history[..t.historyIndex + 1] + [t.caseFile];
    assert h[..t.historyIndex + 1] == t.history[..t.historyIndex + 1];
    Timeline(next, h, |h| - 1)
  }

  /** `undo`: back one position, loading that snapshot; nothing before the
      second snapshot. */
  function Undo(t: Timeline): (r: Timeline)
    requires WellFormed(t)
    ensures WellFormed(r) && r.history == t.history
    ensures t.historyIndex <= 0 ==> r == t
    ensures t.historyIndex > 0 ==> r.historyIndex == t.historyIndex - 1 && r.caseFile == t.history[r.historyIndex]
  {
    if t.historyIndex > 0 then Timeline(t.history[t.historyIndex - 1], t.history, t.historyIndex - 1) else t
  }

  /** `redo`: forward one position, loading that snapshot; nothing at the
      last snapshot. */
  function Redo(t: Timeline): (r: Timeline)
    requires WellFormed(t)
    ensures WellFormed(r) && r.history == t.history
    ensures t.historyIndex >= |t.history| - 1 ==> r == t
    ensures t.historyIndex < |t.history| - 1 ==> r.historyIndex == t.historyIndex + 1 && r.caseFile == t.history[r.historyIndex]
  {
    if t.historyIndex < |t.history| - 1 then Timeline(t.history[t.historyIndex + 1], t.history, t.historyIndex + 1) else t
  }

  /** `importCaseFile`: the old case file is appended to the WHOLE history;
      unlike a change, the snapshots after the position are kept. */
  function Import(t: Timeline, next: CaseFile): (r: Timeline)
    requires WellFormed(t)
    ensures WellFormed(r) && r.caseFile == next
    ensures r.historyIndex == |t.history| == |r.history| - 1
    ensures r.history[..|t.history|] == t.history && r.history[|t.history|] == t.caseFile
  {
    var h := t.history + [t.caseFile];
    assert h[..|t.history|] == t.history;
    Timeline(next, h, |h| - 1)
  }

  /** `loadFromStorage`: the loaded case file is the only snapshot. */
  function Loaded(cf: CaseFile): (r: Timeline)
    ensures WellFormed(r) && r.caseFile == cf && r.history == [cf] && r.historyIndex == 0
  {
    Timeline(cf, [cf], 0)
  }

  /** After a change there is nothing to redo, and undo is possible exactly
      when the position was already past the first snapshot... */
  lemma CommitThenUndo(t: Timeline, next: CaseFile)
    requires WellFormed(t)
    ensures Redo(Commit(t, next)) == Commit(t, next)
    ensures Undo(Commit(t, next)) != Commit(t, next) <==> t.historyIndex >= 0
    ensures t.historyIndex >= 0 ==> Undo(Commit(t, next)).caseFile == t.history[t.historyIndex]
  {
    var r := Commit(t, next);
    if t.historyIndex >= 0 {
      assert r.history[t.historyIndex] == r.history[..t.historyIndex + 1][t.historyIndex];
    }
  }

  /** ...so the first change of an empty store cannot be undone. */
  lemma FirstChangeCannotBeUndone(next: CaseFile)
    ensures Undo(Commit(Initial, next)) == Commit(Initial, next)
  {
  }

  /** Two changes from the empty store, then undo: both changes are gone,
      not only the second. */
  lemma UndoSkipsAState(a: CaseFile, b: CaseFile)
    ensures Undo(Commit(Commit(Initial, a), b)).caseFile == []
    ensures Undo(Commit(Commit(Initial, a), b)).historyIndex == 0
  {
    CommitThenUndo(Commit(Initial, a), b);
  }

  /** Undo then redo comes back to the position, but to the snapshot stored
      there, which is the state before the latest change and not the case
      file that was current. */
  lemma UndoRedo(t: Timeline)
    requires WellFormed(t) && t.historyIndex > 0
    ensures Redo(Undo(t)).history == t.history && Redo(Undo(t)).historyIndex == t.historyIndex
    ensures Redo(Undo(t)).caseFile == t.history[t.historyIndex]
  {
  }

  /** A concrete case: after adding to an empty store twice, undo and redo
      end on the state after the first change, not the second. */
  lemma UndoRedoLosesLatest(a: CaseFile, b: CaseFile)
    requires a != b
    ensures Redo(Undo(Commit(Commit(Initial, a), b))).caseFile == a
    ensures Redo(Undo(Commit(Commit(Initial, a), b))).caseFile != Commit(Commit(Initial, a), b).caseFile
  {
    var t := Commit(Commit(Initial, a), b);
    UndoRedo(t);
  }

  /** A change after an undo discards the snapshots ahead; an import keeps
      them. */
  lemma ImportKeepsRedoTail(t: Timeline, next: CaseFile)
    requires WellFormed(t) && t.historyIndex < |t.history| - 1
    ensures |Import(t, next).history| == |t.history| + 1
    ensures |Commit(t, next).history| < |t.history| + 1
    ensures Import(t, next).history[t.historyIndex + 1] == t.history[t.historyIndex + 1]
  {
  }
}
