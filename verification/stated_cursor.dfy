/** The backtracking cursor the parser walks the token stream with
    (EnumerableExtensions/StatedTwoWayEnumerator.cs): the two-way cursor plus a
    stack of displacement counters, one per saved position. The bottom frame
    is pushed by the constructor and by `Reset` and is never popped. */
module StatedCursor {
  import opened Wrappers
  import TwoWayCursor

  type CursorError = TwoWayCursor.CursorError

  /** `frames` lists the displacements bottom first; the last one is the top
      of the stack. */
  datatype Cursor<T> = Cursor(source: seq<T>, buffer: seq<T>, index: int, frames: seq<int>)

  /** The cursor without its stack. */
  function Plain<T>(c: Cursor<T>): TwoWayCursor.Cursor<T> {
    TwoWayCursor.Cursor(c.source, c.buffer, c.index)
  }

  /** The index each frame was pushed at, bottom first: a frame's displacement
      is how far the index has moved since the frame was pushed, so the top
      frame was pushed at `index - top`, the one below it at that minus its
      own displacement, and so on. */
  function Marks(index: int, frames: seq<int>): (r: seq<int>)
    ensures |r| == |frames|
    decreases |frames|
  {
    if frames == [] then []
    else
      var top := frames[|frames| - 1];
      Marks(index - top, frames[..|frames| - 1]) + [index - top]
  }

  /** The positions a restore would return to, innermost last. */
  function SavedPositions<T>(c: Cursor<T>): (r: seq<int>)
    ensures |r| == |c.frames|
  {
    Marks(c.index, c.frames)
  }

  /** The state every public operation keeps: the two-way cursor's state, at
      least the bottom frame, the bottom frame marking the start position, and
      every saved position one the cursor can return to. */
  ghost predicate Valid<T>(c: Cursor<T>) {
    TwoWayCursor.Valid(Plain(c)) && |c.frames| >= 1 && SavedPositions(c)[0] == -1
    && forall k :: 0 <= k < |c.frames| ==> -1 <= SavedPositions(c)[k] < |c.buffer|
  }

  /** The constructor: empty buffer, index -1, one zero frame; `None` stands
      for a null enumerator. */
  function New<T>(source: Option<seq<T>>): (r: Result<Cursor<T>, CursorError>)
    ensures source.None? <==> r.Failure?
    ensures r.Failure? ==> r.error == TwoWayCursor.ArgumentNull("enumerator")
    ensures r.Success? ==> Valid(r.value) && r.value.source == source.value
                           && r.value.buffer == [] && r.value.index == -1
                           && r.value.frames == [0] && SavedPositions(r.value) == [-1]
    ensures r.Success? ==> TwoWayCursor.New(source) == Success(Plain(r.value))
  {
    match source
    case None => Failure(TwoWayCursor.ArgumentNull("enumerator"))
    case Some(s) => Success(Cursor(s, [], -1, [0]))
  }

  /** `Reset`: exactly the freshly constructed state over the same source. */
  function Reset<T>(c: Cursor<T>): (r: Cursor<T>)
    ensures New(Some(c.source)) == Success(r)
    ensures Plain(r) == TwoWayCursor.Reset(Plain(c))
  {
    Cursor(c.source, [], -1, [0])
  }

  /** `SavePosition`: pushes a zero frame, which remembers the current index;
      nothing else changes. */
  function SavePosition<T>(c: Cursor<T>): (r: Cursor<T>)
    requires Valid(c)
    ensures Valid(r)
    ensures Plain(r) == Plain(c) && r.frames == c.frames + [0]
    ensures SavedPositions(r) == SavedPositions(c) + [c.index]
  {
    c.(frames := c.frames + [0])
  }

  /** `RestoreLastSavedPosition`: pops the top frame and moves the index back
      to where that frame was pushed. With only the bottom frame left it does
      nothing. */
  function RestoreLastSavedPosition<T>(c: Cursor<T>): (r: Cursor<T>)
    requires Valid(c)
    ensures Valid(r) && r.source == c.source && r.buffer == c.buffer
    ensures |c.frames| == 1 ==> r == c
    ensures |c.frames| > 1 ==> r.index == SavedPositions(c)[|c.frames| - 1]
                               && SavedPositions(r) == SavedPositions(c)[..|c.frames| - 1]
  {
    if |c.frames| <= 1 then c
    else
      var n := |c.frames|;
      var r := c.(index := c.index - c.frames[n - 1], frames := c.frames[..n - 1]);
      assert SavedPositions(c) == SavedPositions(r) + [r.index];
      assert -1 <= SavedPositions(c)[n - 1] < |c.buffer|;
      assert SavedPositions(r) == SavedPositions(c)[..n - 1];
      r
  }

  /** `RemoveLastSavedState`: pops the top frame without moving the index and
      adds its displacement to the frame below, so every remaining saved
      position is kept. With only the bottom frame left it does nothing. */
  function RemoveLastSavedState<T>(c: Cursor<T>): (r: Cursor<T>)
    requires Valid(c)
    ensures Valid(r) && Plain(r) == Plain(c)
    ensures |c.frames| == 1 ==> r == c
    ensures |c.frames| > 1 ==> SavedPositions(r) == SavedPositions(c)[..|c.frames| - 1]
  {
    if |c.frames| <= 1 then c
    else
      var n := |c.frames|;
      var fs := c.frames[..n - 2] + [c.frames[n - 2] + c.frames[n - 1]];
      var r := c.(frames := fs);
      assert fs[..n - 2] == c.frames[..n - 1][..n - 2];
      assert Marks(c.index, fs) == Marks(c.index - c.frames[n - 1], c.frames[..n - 1]);
      assert SavedPositions(c) == SavedPositions(r) + [c.index - c.frames[n - 1]];
      assert SavedPositions(r) == SavedPositions(c)[..n - 1];
      r
  }

  /** `MoveNext`: the two-way step, which also moves the top frame's
      displacement along, so no saved position changes. */
  function MoveNext<T>(c: Cursor<T>): (r: (bool, Cursor<T>))
    requires Valid(c)
    ensures Valid(r.1)
    ensures r.0 == TwoWayCursor.MoveNext(Plain(c)).0
    ensures Plain(r.1) == TwoWayCursor.MoveNext(Plain(c)).1
    ensures SavedPositions(r.1) == SavedPositions(c)
    ensures r.0 ==> |r.1.frames| == |c.frames|
                    && r.1.frames[|c.frames| - 1] == c.frames[|c.frames| - 1] + 1
    ensures !r.0 ==> r.1 == c
  {
    var (moved, p) := TwoWayCursor.MoveNext(Plain(c));
    if moved then
      var n := |c.frames|;
      var r := Cursor(p.source, p.buffer, p.index, c.frames[..n - 1] + [c.frames[n - 1] + 1]);
      assert r.frames[..n - 1] == c.frames[..n - 1];
      (true, r)
    else (false, c)
  }

  /** `MovePrevious`: fails before the first element; otherwise the two-way
      step back, which also moves the top frame's displacement back. */
  function MovePrevious<T>(c: Cursor<T>): (r: Result<Cursor<T>, CursorError>)
    requires Valid(c)
    ensures r.Failure? <==> c.index < 0
    ensures r.Failure? ==> r.error == TwoWayCursor.InvalidOperation
    ensures r.Success? ==> Valid(r.value)
                           && Success(Plain(r.value)) == TwoWayCursor.MovePrevious(Plain(c))
                           && SavedPositions(r.value) == SavedPositions(c)
                           && |r.value.frames| == |c.frames|
                           && r.value.frames[|c.frames| - 1] == c.frames[|c.frames| - 1] - 1
  {
    if c.index < 0 then Failure(TwoWayCursor.InvalidOperation)
    else
      var n := |c.frames|;
      var r := c.(index := c.index - 1, frames := c.frames[..n - 1] + [c.frames[n - 1] - 1]);
      assert r.frames[..n - 1] == c.frames[..n - 1];
      Success(r)
  }

  /** `Current`: the element of the source at the index. */
  function Current<T>(c: Cursor<T>): (r: Result<T, CursorError>)
    requires Valid(c)
    ensures r == TwoWayCursor.Current(Plain(c))
    ensures r.Success? <==> 0 <= c.index
    ensures r.Success? ==> r.value == c.source[c.index]
  {
    TwoWayCursor.Current(Plain(c))
  }

  /** One call on the cursor. */
  datatype Call = Next | Previous | Save | Restore | Remove

  /** The effect of one call; only `Previous` can throw. */
  function Step<T>(c: Cursor<T>, call: Call): (r: Result<Cursor<T>, CursorError>)
    requires Valid(c)
    ensures r.Success? ==> Valid(r.value) && r.value.source == c.source
                           && c.buffer <= r.value.buffer
  {
    match call
    case Next => Success(MoveNext(c).1)
    case Previous => MovePrevious(c)
    case Save => Success(SavePosition(c))
    case Restore => Success(RestoreLastSavedPosition(c))
    case Remove => Success(RemoveLastSavedState(c))
  }

  /** The effect of a sequence of calls, stopping at the first exception. */
  function Run<T>(c: Cursor<T>, calls: seq<Call>): (r: Result<Cursor<T>, CursorError>)
    requires Valid(c)
    ensures r.Success? ==> Valid(r.value) && r.value.source == c.source
                           && c.buffer <= r.value.buffer
    decreases |calls|
  {
    if calls == [] then Success(c)
    else
      var d :- Step(c, calls[0]);
      Run(d, calls[1..])
  }

  /** `calls` run without an exception and never pop a frame at or below
      position `depth - 1` of the stack. */
  ghost predicate AboveFloor<T>(c: Cursor<T>, calls: seq<Call>, depth: nat)
    requires Valid(c)
    decreases |calls|
  {
    calls == []
    || (Step(c, calls[0]).Success?
        && (calls[0] in {Restore, Remove} ==> |c.frames| > depth)
        && AboveFloor(Step(c, calls[0]).value, calls[1..], depth))
  }

  /** Calls that stay above a floor leave every saved position at or below it
      untouched. */
  lemma {:induction false} FloorKept<T>(c: Cursor<T>, calls: seq<Call>, depth: nat)
    requires Valid(c) && 1 <= depth <= |c.frames|
    requires AboveFloor(c, calls, depth)
    ensures Run(c, calls).Success?
    ensures depth <= |Run(c, calls).value.frames|
    ensures SavedPositions(Run(c, calls).value)[..depth] == SavedPositions(c)[..depth]
    decreases |calls|
  {
    if calls != [] {
      var d := Step(c, calls[0]).value;
      assert depth <= |d.frames|;
      assert SavedPositions(d)[..depth] == SavedPositions(c)[..depth];
      FloorKept(d, calls[1..], depth);
    }
  }

  /** Exact rollback: save, run any calls that leave the stack as they found
      it and never pop below the new frame, then restore — the index, the
      stack of saved positions and the current element are as they were before
      the save. */
  lemma RollbackExact<T>(c: Cursor<T>, calls: seq<Call>)
    requires Valid(c)
    requires AboveFloor(SavePosition(c), calls, |c.frames| + 1)
    requires Run(SavePosition(c), calls).Success?
    requires |Run(SavePosition(c), calls).value.frames| == |c.frames| + 1
    ensures var d := RestoreLastSavedPosition(Run(SavePosition(c), calls).value);
            d.index == c.index && SavedPositions(d) == SavedPositions(c)
            && |d.frames| == |c.frames| && c.buffer <= d.buffer
            && Current(d) == Current(c)
  {
    hide Run, Step, AboveFloor, SavePosition, RestoreLastSavedPosition, Current, Marks;
    var n := |c.frames|;
    var s := SavePosition(c);
    FloorKept(s, calls, n + 1);
    var e := Run(s, calls).value;
    assert SavedPositions(e) == SavedPositions(e)[..n + 1];
    assert SavedPositions(e) == SavedPositions(c) + [c.index];
    var d := RestoreLastSavedPosition(e);
    assert d.index == c.index;
    assert SavedPositions(d) == (SavedPositions(c) + [c.index])[..n];
    assert d.source == c.source;
  }

  /** Committing instead of restoring: the same calls followed by
      `RemoveLastSavedState` leave the saved positions as they were before the
      save and keep the index where the calls left it. */
  lemma CommitKeepsOuterPositions<T>(c: Cursor<T>, calls: seq<Call>)
    requires Valid(c)
    requires AboveFloor(SavePosition(c), calls, |c.frames| + 1)
    requires Run(SavePosition(c), calls).Success?
    requires |Run(SavePosition(c), calls).value.frames| == |c.frames| + 1
    ensures var e := Run(SavePosition(c), calls).value;
            var d := RemoveLastSavedState(e);
            d.index == e.index && SavedPositions(d) == SavedPositions(c)
  {
    var n := |c.frames|;
    var s := SavePosition(c);
    FloorKept(s, calls, n + 1);
    var e := Run(s, calls).value;
    assert SavedPositions(e)[..n + 1] == SavedPositions(e);
    assert SavedPositions(e) == SavedPositions(c) + [c.index];
    assert (SavedPositions(c) + [c.index])[..n] == SavedPositions(c);
    var d := RemoveLastSavedState(e);
    assert SavedPositions(d) == SavedPositions(e)[..n];
  }
}
