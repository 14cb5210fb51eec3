/** The buffered two-way cursor over a one-way enumeration
    (EnumerableExtensions/TwoWayEnumerator.cs). The wrapped enumerator is
    modelled by the finite sequence it would yield; pulling an element from it
    appends that element to the buffer. */
module TwoWayCursor {
  import opened Wrappers

  /** The exceptions the cursors throw. */
  datatype CursorError = ArgumentNull(parameter: string) | InvalidOperation

  /** `source` is everything the wrapped enumerator yields, `buffer` what has
      been pulled from it so far, `index` the current position (-1 before the
      first element). */
  datatype Cursor<T> = Cursor(source: seq<T>, buffer: seq<T>, index: int)

  /** The state every public operation keeps: the buffer is what was pulled,
      in order, and the index never leaves [-1, |buffer| - 1]. */
  ghost predicate Valid<T>(c: Cursor<T>) {
    |c.buffer| <= |c.source| && c.buffer == c.source[..|c.buffer|]
    && -1 <= c.index < |c.buffer|
  }

  /** The constructor; `None` stands for a null enumerator. */
  function New<T>(source: Option<seq<T>>): (r: Result<Cursor<T>, CursorError>)
    ensures source.None? <==> r.Failure?
    ensures r.Failure? ==> r.error == ArgumentNull("enumerator")
    ensures r.Success? ==> Valid(r.value) && r.value.source == source.value
                           && r.value.buffer == [] && r.value.index == -1
  {
    match source
    case None => Failure(ArgumentNull("enumerator"))
    case Some(s) => Success(Cursor(s, [], -1))
  }

  /** `MoveNext`: step inside the buffer, or pull one element at its end.
      It succeeds exactly when the source has an element after the index. */
  function MoveNext<T>(c: Cursor<T>): (r: (bool, Cursor<T>))
    requires Valid(c)
    ensures Valid(r.1) && r.1.source == c.source
    ensures r.0 <==> c.index + 1 < |c.source|
    ensures r.0 ==> r.1.index == c.index + 1 && c.buffer <= r.1.buffer
    ensures r.0 && c.index + 1 < |c.buffer| ==> r.1.buffer == c.buffer
    ensures r.0 && c.index + 1 == |c.buffer| ==> r.1.buffer == c.buffer + [c.source[c.index + 1]]
    ensures !r.0 ==> r.1 == c
  {
    if c.index < |c.buffer| - 1 then
      (true, c.(index := c.index + 1))
    else if |c.buffer| < |c.source| then
      assert c.source[..|c.buffer| + 1] == c.buffer + [c.source[|c.buffer|]];
      (true, c.(buffer := c.buffer + [c.source[|c.buffer|]], index := c.index + 1))
    else
      (false, c)
  }

  /** `MovePrevious`: fails before the first element, otherwise steps back. */
  function MovePrevious<T>(c: Cursor<T>): (r: Result<Cursor<T>, CursorError>)
    requires Valid(c)
    ensures r.Failure? <==> c.index < 0
    ensures r.Failure? ==> r.error == InvalidOperation
    ensures r.Success? ==> Valid(r.value) && r.value.index == c.index - 1
                           && r.value.buffer == c.buffer && r.value.source == c.source
  {
    if c.index < 0 then Failure(InvalidOperation) else Success(c.(index := c.index - 1))
  }

  /** `Current`: the element of the source at the index. */
  function Current<T>(c: Cursor<T>): (r: Result<T, CursorError>)
    requires Valid(c)
    ensures r.Success? <==> 0 <= c.index
    ensures r.Failure? ==> r.error == InvalidOperation
    ensures r.Success? ==> r.value == c.source[c.index]
  {
    if c.index < 0 || c.index >= |c.buffer| then Failure(InvalidOperation)
    else Success(c.buffer[c.index])
  }

  /** `Reset`: back to the freshly constructed state over the same source. */
  function Reset<T>(c: Cursor<T>): (r: Cursor<T>)
    ensures Valid(r) && r.source == c.source && r.buffer == [] && r.index == -1
    ensures New(Some(c.source)) == Success(r)
  {
    Cursor(c.source, [], -1)
  }

  /** Stepping forward and back again returns to the same position and the
      same current element, and the second visit reads from the buffer. */
  lemma ForwardThenBack<T>(c: Cursor<T>)
    requires Valid(c) && MoveNext(c).0
    ensures MovePrevious(MoveNext(c).1).Success?
    ensures MovePrevious(MoveNext(c).1).value.index == c.index
    ensures Current(MovePrevious(MoveNext(c).1).value) == Current(c)
    ensures MoveNext(MovePrevious(MoveNext(c).1).value) == (true, MoveNext(c).1)
  {
  }

  /** The element read at a position never changes: two valid cursors over the
      same source at the same index read the same element, whatever happened
      between them. */
  lemma SamePositionSameElement<T>(a: Cursor<T>, b: Cursor<T>)
    requires Valid(a) && Valid(b) && a.source == b.source && a.index == b.index
    ensures Current(a) == Current(b)
  {
  }
}
