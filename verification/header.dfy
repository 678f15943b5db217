/** The toolbar of src/components/Header.jsx: whether undo and redo are
    offered, and the label that says when the case was last saved. The
    clock reading and the locale time text are parameters. */
module Header {
  import opened Wrappers
  import opened Text
  import opened History

  /** The undo button is enabled. */
  predicate CanUndo(t: Timeline) {
    t.historyIndex > 0
  }

  /** The redo button is enabled. */
  predicate CanRedo(t: Timeline) {
    t.historyIndex < |t.history| - 1
  }

  /** The undo button is enabled exactly when the store's undo would
      change something. */
  lemma CanUndoIffUndoMoves(t: Timeline)
    requires WellFormed(t)
    ensures CanUndo(t) <==> Undo(t) != t
  {
  }

  /** The redo button is enabled exactly when the store's redo would
      change something. */
  lemma CanRedoIffRedoMoves(t: Timeline)
    requires WellFormed(t)
    ensures CanRedo(t) <==> Redo(t) != t
  {
  }

  const NeverSaved := "Never saved"
  const JustNow := "Saved just now"
  const OneMinuteAgo := "Saved 1 minute ago"

  function MinutesAgo(n: nat): string {
    "Saved " + NatToString(n) + " minutes ago"
  }

  function SavedAt(timeText: string): string {
    "Saved at " + timeText
  }

  /** `Math.floor(diffMs / 60000)`: Dafny's division by a positive number
      rounds toward negative infinity too, also for a negative elapsed time. */
  function ElapsedMinutes(timestamp: nat, now: int): int {
    (now - timestamp) / 60000
  }

  /** `formatLastSave(timestamp)`: no timestamp is "Never saved" (the store
      keeps an ISO text, never falsy once set, read here as milliseconds);
      otherwise the whole minutes elapsed pick the label, and from an hour
      on the locale time of the save is shown. */
  function FormatLastSave(timestamp: Option<nat>, now: int, timeText: string): string {
    if timestamp.None? then NeverSaved
    else
      var diffMins := ElapsedMinutes(timestamp.value, now);
      if diffMins < 1 then JustNow
      else if diffMins == 1 then OneMinuteAgo
      else if diffMins < 60 then MinutesAgo(diffMins)
      else SavedAt(timeText)
  }

  /** The label by elapsed milliseconds: under a minute (a timestamp in
      the future included) is "just now", the second minute is "1 minute
      ago", minutes 2 to 59 are counted, and from 60 minutes the time is
      shown. */
  lemma LastSaveLabels(timestamp: nat, now: int, timeText: string)
    ensures var d := now - timestamp; var r := FormatLastSave(Some(timestamp), now, timeText);
      && (d < 60000 ==> r == JustNow)
      && (60000 <= d < 120000 ==> r == OneMinuteAgo)
      && (120000 <= d < 3600000 ==> 2 <= d / 60000 < 60 && r == MinutesAgo(d / 60000))
      && (3600000 <= d ==> r == SavedAt(timeText))
    ensures timestamp > now ==> FormatLastSave(Some(timestamp), now, timeText) == JustNow
  {
    var d := now - timestamp;
    if d < 60000 {
      assert d / 60000 < 1;
    } else if d < 120000 {
      assert d / 60000 == 1;
    } else if d < 3600000 {
      assert 2 <= d / 60000 < 60;
    } else {
      assert d / 60000 >= 60;
    }
  }

  /** "Never saved" is shown exactly when there is no save time: every
      other label starts "Saved". */
  lemma NeverSavedIffNoTimestamp(timestamp: Option<nat>, now: int, timeText: string)
    ensures FormatLastSave(timestamp, now, timeText) == NeverSaved <==> timestamp.None?
  {
    var r := FormatLastSave(timestamp, now, timeText);
    if timestamp.Some? {
      assert r[0] == 'S';
      assert NeverSaved[0] == 'N';
    }
  }

  /** Different minute counts give different labels. */
  lemma MinutesAgoInjective(a: nat, b: nat)
    requires MinutesAgo(a) == MinutesAgo(b)
    ensures a == b
  {
    var head, tail := "Saved ", " minutes ago";
    var sa, sb := NatToString(a), NatToString(b);
    assert |sa| == |sb|;
    assert sa == MinutesAgo(a)[|head|..|head| + |sa|];
    assert sb == MinutesAgo(b)[|head|..|head| + |sb|];
    NatToStringInjective(a, b);
  }
}
