/** The undo/redo history of the colour picker as a value: the stored snapshots,
    oldest first, and the cursor that names the current one. The picker's
    `updateHistory`, `undo` and `redo` are proved against the functions here. */
module History {

  /** The cap `MAX_HISTORY` on the number of stored snapshots. */
  const MaxHistory: nat := 50

  datatype Timeline<T> = Timeline(entries: seq<T>, index: int)

  /** What every history operation keeps: the cursor names a stored entry and at
      most MaxHistory entries are stored. */
  predicate Valid<T>(t: Timeline<T>) {
    0 <= t.index < |t.entries| <= MaxHistory
  }

  /** The entry the cursor names: the live state after an undo or a redo. */
  function Current<T>(t: Timeline<T>): (x: T)
    requires Valid(t)
  {
    t.entries[t.index]
  }

  /** `undo` succeeds exactly when the cursor is above the oldest entry. */
  predicate CanUndo<T>(t: Timeline<T>) {
    t.index > 0
  }

  /** `redo` succeeds exactly when the cursor is below the newest entry. */
  predicate CanRedo<T>(t: Timeline<T>) {
    t.index < |t.entries| - 1
  }

  function Min(a: int, b: int): (m: int) {
    if a <= b then a else b
  }

  /** The newest MaxHistory elements of `s`, in order; all of `s` when it is short enough. */
  function Newest<T>(s: seq<T>): (r: seq<T>)
    ensures |r| == Min(|s|, MaxHistory)
    ensures |s| > 0 ==> r[|r| - 1] == s[|s| - 1]
  {
    if |s| <= MaxHistory then s else s[|s| - MaxHistory..]
  }

  /** The history after committing `x`: everything after the cursor is dropped, `x`
      is appended, and only the newest MaxHistory entries are kept. */
  function Push<T>(t: Timeline<T>, x: T): (r: Timeline<T>)
    requires Valid(t)
    ensures Valid(r)
    ensures r.index == |r.entries| - 1 && Current(r) == x
    ensures !CanRedo(r)
    ensures |r.entries| == Min(t.index + 2, MaxHistory)
  {
    var kept := Newest(t.entries[..t.index + 1] + [x]);
    Timeline(kept, |kept| - 1)
  }

  /** Before the new entry, a commit keeps the old entries up to the cursor, in order,
      less the oldest one when the cap forces an eviction; every entry after the old
      cursor is gone. */
  lemma PushKeepsPast<T>(t: Timeline<T>, x: T)
    requires Valid(t)
    ensures var r := Push(t, x);
      forall k :: 0 <= k < r.index ==> r.entries[k] == t.entries[k + (t.index + 1 - r.index)]
  {
  }

  /** The history after `undo`: the entries stay and the cursor drops by one if it can. */
  function Undo<T>(t: Timeline<T>): (r: Timeline<T>)
    requires Valid(t)
    ensures Valid(r)
    ensures r.entries == t.entries
    ensures CanUndo(t) ==> r.index == t.index - 1
    ensures !CanUndo(t) ==> r == t
  {
    if CanUndo(t) then Timeline(t.entries, t.index - 1) else t
  }

  /** The history after `redo`: the entries stay and the cursor rises by one if it can. */
  function Redo<T>(t: Timeline<T>): (r: Timeline<T>)
    requires Valid(t)
    ensures Valid(r)
    ensures r.entries == t.entries
    ensures CanRedo(t) ==> r.index == t.index + 1
    ensures !CanRedo(t) ==> r == t
  {
    if CanRedo(t) then Timeline(t.entries, t.index + 1) else t
  }

  /** The history after committing each element of `xs` in turn. */
  function PushAll<T>(t: Timeline<T>, xs: seq<T>): (r: Timeline<T>)
    requires Valid(t)
    ensures Valid(r)
    decreases |xs|
  {
    if xs == [] then t else PushAll(Push(t, xs[0]), xs[1..])
  }

  /** The history after `n` calls of `undo`; the cursor stops at the oldest entry. */
  function UndoTimes<T>(t: Timeline<T>, n: nat): (r: Timeline<T>)
    requires Valid(t)
    ensures Valid(r)
    ensures r.entries == t.entries
    ensures r.index == if n <= t.index then t.index - n else 0
    decreases n
  {
    if n == 0 then t else UndoTimes(Undo(t), n - 1)
  }

  /** The history after `n` calls of `redo`; the cursor stops at the newest entry. */
  function RedoTimes<T>(t: Timeline<T>, n: nat): (r: Timeline<T>)
    requires Valid(t)
    ensures Valid(r)
    ensures r.entries == t.entries
    ensures r.index == Min(t.index + n, |t.entries| - 1)
  {
    if n == 0 then t else Redo(RedoTimes(t, n - 1))
  }

  /** The history a picker starts with: its initial state alone, as the current entry. */
  lemma InitialIsValid<T>(x: T)
    ensures Valid(Timeline([x], 0))
    ensures !CanUndo(Timeline([x], 0)) && !CanRedo(Timeline([x], 0))
  {
  }

  /** A successful `undo` is undone by `redo`. */
  lemma RedoAfterUndo<T>(t: Timeline<T>)
    requires Valid(t) && CanUndo(t)
    ensures CanRedo(Undo(t))
    ensures Redo(Undo(t)) == t
  {
  }

  /** A successful `redo` is undone by `undo`. */
  lemma UndoAfterRedo<T>(t: Timeline<T>)
    requires Valid(t) && CanRedo(t)
    ensures CanUndo(Redo(t))
    ensures Undo(Redo(t)) == t
  {
  }

  /** Stepping back `n` entries and then forward `n` entries restores the history,
      as long as the steps back stay inside it. */
  lemma RedoTimesAfterUndoTimes<T>(t: Timeline<T>, n: nat)
    requires Valid(t) && n <= t.index
    ensures RedoTimes(UndoTimes(t, n), n) == t
  {
  }

  /** Trimming to the newest entries before appending more does not change which
      entries are kept in the end. */
  lemma NewestAppend<T>(s: seq<T>, ys: seq<T>)
    ensures Newest(Newest(s) + ys) == Newest(s + ys)
  {
  }

  /** The entries a commit of `x` leaves up to its cursor, followed by `ys`, keep the
      same newest entries as the old entries up to the old cursor followed by `x` and `ys`. */
  lemma PushThenAppend<T>(t: Timeline<T>, x: T, ys: seq<T>)
    requires Valid(t)
    ensures Newest(Push(t, x).entries[..Push(t, x).index + 1] + ys)
         == Newest(t.entries[..t.index + 1] + [x] + ys)
  {
    var past := t.entries[..t.index + 1];
    var t' := Push(t, x);
    assert t'.entries[..t'.index + 1] == Newest(past + [x]);
    NewestAppend(past + [x], ys);
  }

  /** Splitting a run into its first element and the rest; kept apart because the
      solver handles this equality cheaply only on its own. */
  lemma SplitFirst<T>(p: seq<T>, xs: seq<T>)
    requires xs != []
    ensures p + [xs[0]] + xs[1..] == p + xs
  {
  }

  /** Committing a run of states keeps exactly the newest MaxHistory of the entries up
      to the old cursor followed by the run, and leaves the cursor on the last of them. */
  lemma {:induction false} PushAllNewest<T>(t: Timeline<T>, xs: seq<T>)
    requires Valid(t) && xs != []
    ensures PushAll(t, xs).entries == Newest(t.entries[..t.index + 1] + xs)
    ensures PushAll(t, xs).index == |PushAll(t, xs).entries| - 1
    decreases |xs|
  {
    var t' := Push(t, xs[0]);
    assert PushAll(t, xs) == PushAll(t', xs[1..]);
    if |xs| == 1 {
      assert xs == [xs[0]];
    } else {
      PushAllNewest(t', xs[1..]);
      PushThenAppend(t, xs[0], xs[1..]);
      SplitFirst(t.entries[..t.index + 1], xs);
    }
  }

  /** After a run of commits the history holds min(cursor + 1 + run length, MaxHistory)
      entries, the cursor is on the last commit and there is nothing to redo. */
  lemma PushAllLast<T>(t: Timeline<T>, xs: seq<T>)
    requires Valid(t) && xs != []
    ensures |PushAll(t, xs).entries| == Min(t.index + 1 + |xs|, MaxHistory)
    ensures Current(PushAll(t, xs)) == xs[|xs| - 1]
    ensures !CanRedo(PushAll(t, xs))
  {
    PushAllNewest(t, xs);
    var w := t.entries[..t.index + 1] + xs;
    var r := PushAll(t, xs);
    assert r.entries[|r.entries| - 1] == w[|w| - 1];
  }

  /** The 51st entry evicts the oldest one: a new commit on a full history whose
      cursor is on its newest entry shifts everything down by one, and the cursor
      stays where it is, now on the new entry. */
  lemma PushAtCapacity<T>(t: Timeline<T>, x: T)
    requires Valid(t) && |t.entries| == MaxHistory && t.index == MaxHistory - 1
    ensures Push(t, x) == Timeline(t.entries[1..] + [x], t.index)
  {
  }

  /** A history that reaches its cap by commits from a single initial entry has lost
      the initial entry and keeps exactly the last MaxHistory commits. */
  lemma InitialEvicted<T>(x: T, xs: seq<T>)
    requires |xs| == MaxHistory
    ensures PushAll(Timeline([x], 0), xs) == Timeline(xs, MaxHistory - 1)
  {
    var t := Timeline([x], 0);
    PushAllNewest(t, xs);
    PushAllLast(t, xs);
    var r := PushAll(t, xs);
    assert r.entries == xs;
  }

  /** Three edits, two undos, one more edit: the second undo lands on the first
      edit, a third undo would still succeed and land on the initial state, and a
      new edit made after the two undos discards the third and second edits and
      leaves nothing to redo. */
  lemma EditUndoEditScenario<T>(d: T, e1: T, e2: T, e3: T, e4: T)
    ensures Valid(Undo(Undo(PushAll(Timeline([d], 0), [e1, e2, e3]))))
    ensures Current(Undo(Undo(PushAll(Timeline([d], 0), [e1, e2, e3])))) == e1
    ensures CanUndo(Undo(Undo(PushAll(Timeline([d], 0), [e1, e2, e3]))))
    ensures Current(Undo(Undo(Undo(PushAll(Timeline([d], 0), [e1, e2, e3]))))) == d
    ensures Push(Undo(Undo(PushAll(Timeline([d], 0), [e1, e2, e3]))), e4) == Timeline([d, e1, e4], 2)
    ensures !CanRedo(Push(Undo(Undo(PushAll(Timeline([d], 0), [e1, e2, e3]))), e4))
  {
    var t := PushAll(Timeline([d], 0), [e1, e2, e3]);
    PushAllNewest(Timeline([d], 0), [e1, e2, e3]);
    assert t.entries == [d, e1, e2, e3];
    var u := Undo(Undo(t));
    assert u == Timeline([d, e1, e2, e3], 1);
    var p := Push(u, e4);
    assert u.entries[..2] + [e4] == [d, e1, e4];
    assert p.entries == [d, e1, e4];
  }
}
