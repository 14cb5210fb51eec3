/** The typed tuple and set containers (MdxMemberTuple.cs, MdxSetTuple.cs,
    MdxMemberSet.cs, MdxTupleSet.cs). The four classes differ only in what
    they hold, their brackets, their messages and whether a single element
    renders without brackets, so one container type with a `Shape` models all
    of them. The elements are object references: `Without` finds an element
    by reference (none of the element classes overrides `Equals`), so each
    element carries the handle of the object it refers to. */
module Containers {
  import opened Wrappers
  import opened Text
  import opened Nodes

  /** A reference to an object: its identity and its contents. */
  datatype Ref<T> = Ref(handle: nat, target: T)

  /** What distinguishes the four container classes. */
  datatype Shape = Shape(open: string, close: string, emptyMessage: string,
                         bareSingle: bool, itemName: string, listName: string)

  const MemberTupleShape := Shape("{ ", " }", "There are no members in tuple!", true, "member", "members")
  const SetTupleShape := Shape("{ ", " }", "There are no sets in tuple!", false, "set", "sets")
  const MemberSetShape := Shape("( ", " )", "There are no members in set!", true, "member", "members")
  const TupleSetShape := Shape("( ", " )", "There are no tuples in set!", false, "tuple", "tuples")

  datatype Container<T> = Container(shape: Shape, items: seq<Ref<T>>)

  /** The public constructor: an empty container. */
  function New<T>(shape: Shape): (r: Container<T>)
    ensures r.shape == shape && |r.items| == 0
  {
    Container(shape, [])
  }

  /** The internal constructor over an existing list; `None` is a null list. */
  function FromList<T>(shape: Shape, list: Option<seq<Ref<T>>>): (r: Result<Container<T>, Error>)
    ensures list.None? <==> r.Failure?
    ensures r.Failure? ==> r.error == ArgumentNull(shape.listName)
    ensures r.Success? ==> r.value.shape == shape && r.value.items == list.value
  {
    match list
    case None => Failure(ArgumentNull(shape.listName))
    case Some(xs) => Success(Container(shape, xs))
  }

  /** `With`: a null element is rejected, any other is appended. */
  function With<T>(c: Container<T>, x: Option<Ref<T>>): (r: Result<Container<T>, Error>)
    ensures x.None? <==> r.Failure?
    ensures r.Failure? ==> r.error == ArgumentNull(c.shape.itemName)
    ensures r.Success? ==> r.value.shape == c.shape && r.value.items == c.items + [x.value]
  {
    match x
    case None => Failure(ArgumentNull(c.shape.itemName))
    case Some(v) => Success(c.(items := c.items + [v]))
  }

  /** The identities of the referenced objects, in order. */
  function Handles<T>(xs: seq<Ref<T>>): (r: seq<nat>)
    ensures |r| == |xs| && forall i :: 0 <= i < |xs| ==> r[i] == xs[i].handle
  {
    seq(|xs|, i requires 0 <= i < |xs| => xs[i].handle)
  }

  /** The position of the first reference to object `h`, if any. */
  function FirstRef<T>(xs: seq<Ref<T>>, h: nat): (r: Option<nat>)
    ensures r.None? <==> h !in Handles(xs)
    ensures r.Some? ==> r.value < |xs| && xs[r.value].handle == h && h !in Handles(xs[..r.value])
    decreases |xs|
  {
    if xs == [] then None
    else if xs[0].handle == h then Some(0)
    else
      match FirstRef(xs[1..], h)
      case None =>
        assert Handles(xs) == [xs[0].handle] + Handles(xs[1..]);
        None
      case Some(i) =>
        assert Handles(xs[..i + 1]) == [xs[0].handle] + Handles(xs[1..][..i]);
        Some(i + 1)
  }

  /** `Without`: a null element is rejected; otherwise the first element that
      is the same object is removed, and nothing happens when there is none. */
  function Without<T>(c: Container<T>, x: Option<Ref<T>>): (r: Result<Container<T>, Error>)
    ensures x.None? <==> r.Failure?
    ensures r.Failure? ==> r.error == ArgumentNull(c.shape.itemName)
    ensures r.Success? ==> r.value.shape == c.shape
    ensures r.Success? && x.value.handle !in Handles(c.items) ==> r.value == c
    ensures r.Success? && x.value.handle in Handles(c.items) ==>
              exists i :: 0 <= i < |c.items| && c.items[i].handle == x.value.handle
                          && x.value.handle !in Handles(c.items[..i])
                          && r.value.items == c.items[..i] + c.items[i + 1..]
    ensures r.Success? ==>
              multiset(Handles(r.value.items)) == multiset(Handles(c.items)) - multiset{x.value.handle}
  {
    match x
    case None => Failure(ArgumentNull(c.shape.itemName))
    case Some(v) =>
      match FirstRef(c.items, v.handle)
      case None =>
        assert multiset(Handles(c.items))[v.handle] == 0;
        Success(c)
      case Some(i) =>
        RemovedHandles(c.items, i);
        Success(c.(items := c.items[..i] + c.items[i + 1..]))
  }

  /** Removing the element at `i` removes its handle from the handles. */
  lemma RemovedHandles<T>(xs: seq<Ref<T>>, i: nat)
    requires i < |xs|
    ensures multiset(Handles(xs[..i] + xs[i + 1..])) == multiset(Handles(xs)) - multiset{xs[i].handle}
  {
    assert Handles(xs) == Handles(xs[..i]) + [xs[i].handle] + Handles(xs[i + 1..]);
    assert Handles(xs[..i] + xs[i + 1..]) == Handles(xs[..i]) + Handles(xs[i + 1..]);
  }

  /** Adding an object that was not there and then removing it restores the
      container. */
  lemma WithoutUndoesWith<T>(c: Container<T>, x: Ref<T>)
    requires x.handle !in Handles(c.items)
    ensures With(c, Some(x)).Success?
    ensures Without(With(c, Some(x)).value, Some(x)) == Success(c)
  {
    var xs := c.items + [x];
    assert xs[..|c.items|] == c.items;
    assert Handles(xs) == Handles(c.items) + [x.handle];
    assert forall j :: 0 <= j < |c.items| ==> xs[j].handle == Handles(c.items)[j] != x.handle;
    var i := FirstRef(xs, x.handle).value;
    assert i == |c.items|;
    assert xs[..i] + xs[i + 1..] == c.items;
  }

  /** The elements' texts, in order. */
  function ItemTexts<T>(items: seq<Ref<T>>, render: T -> Result<string, Error>): (r: seq<Result<string, Error>>)
    ensures |r| == |items|
    ensures forall i :: 0 <= i < |items| ==> r[i] == render(items[i].target)
  {
    seq(|items|, i requires 0 <= i < |items| => render(items[i].target))
  }

  /** The elements' texts when every element renders. */
  function ItemValues<T>(items: seq<Ref<T>>, render: T -> Result<string, Error>): (r: seq<string>)
    requires forall i :: 0 <= i < |items| ==> render(items[i].target).Success?
    ensures |r| == |items|
    ensures forall i :: 0 <= i < |items| ==> render(items[i].target) == Success(r[i])
  {
    seq(|items|, i requires 0 <= i < |items| => render(items[i].target).value)
  }

  /** `GetStringExpression`, given how one element renders. */
  function RenderContainer<T>(c: Container<T>, render: T -> Result<string, Error>): Result<string, Error> {
    if c.items == [] then Failure(Argument(c.shape.emptyMessage))
    else if c.shape.bareSingle && |c.items| == 1 then render(c.items[0].target)
    else Bracket(c.shape.open, c.shape.close, ItemTexts(c.items, render))
  }

  /** When a container renders: an empty one always throws its own message;
      a non-empty one renders exactly when its elements do, with a single
      member alone and otherwise a bracketed, comma-separated list. */
  lemma ContainerRendering<T>(c: Container<T>, render: T -> Result<string, Error>)
    ensures c.items == [] ==> RenderContainer(c, render) == Failure(Argument(c.shape.emptyMessage))
    ensures c.items != [] ==>
              (RenderContainer(c, render).Success?
               <==> forall i :: 0 <= i < |c.items| ==> render(c.items[i].target).Success?)
    ensures c.shape.bareSingle && |c.items| == 1 ==> RenderContainer(c, render) == render(c.items[0].target)
    ensures c.items != [] && (!c.shape.bareSingle || |c.items| > 1)
            && (forall i :: 0 <= i < |c.items| ==> render(c.items[i].target).Success?) ==>
              RenderContainer(c, render)
              == Success(c.shape.open + Join(", ", ItemValues(c.items, render)) + c.shape.close)
  {
    if c.items != [] && (!c.shape.bareSingle || |c.items| > 1)
       && forall i :: 0 <= i < |c.items| ==> render(c.items[i].target).Success? {
      var rs := ItemTexts(c.items, render);
      var texts := Collect(rs).value;
      var values := ItemValues(c.items, render);
      forall i | 0 <= i < |c.items|
        ensures texts[i] == values[i]
      {
        assert rs[i] == Success(texts[i]);
      }
      assert texts == values;
      assert Bracket(c.shape.open, c.shape.close, rs) == Success(c.shape.open + Join(", ", texts) + c.shape.close);
      assert RenderContainer(c, render) == Bracket(c.shape.open, c.shape.close, rs);
    }
  }

  /** A container whose single member renders bare (the member tuple and the
      member set) brackets two members: adding a second member introduces
      the brackets. */
  lemma SecondMemberAddsBrackets(c: Container<Member>, x: Ref<Member>)
    requires c.shape.bareSingle && |c.items| == 1
    ensures RenderContainer(With(c, Some(x)).value, MemberText)
            == Success(c.shape.open + RenderMember(c.items[0].target) + ", " + RenderMember(x.target) + c.shape.close)
  {
    var items := c.items + [x];
    var a := RenderMember(c.items[0].target);
    var b := RenderMember(x.target);
    var rs := ItemTexts(items, MemberText);
    assert rs == [Success(a), Success(b)];
    var texts := Collect(rs).value;
    assert texts == [a, b];
    assert [a, b][1..] == [b];
    assert Join(", ", texts) == a + ", " + b;
    assert Bracket(c.shape.open, c.shape.close, rs) == Success(c.shape.open + Join(", ", texts) + c.shape.close);
    assert c.shape.open + (a + ", " + b) + c.shape.close == c.shape.open + a + ", " + b + c.shape.close;
    assert RenderContainer(With(c, Some(x)).value, MemberText) == Bracket(c.shape.open, c.shape.close, rs);
  }

  /** How one member renders inside a container. */
  function MemberText(m: Member): Result<string, Error> {
    Success(RenderMember(m))
  }

  /** The set and tuple elements render as the corresponding tree nodes. */
  function SetText(s: Set): Result<string, Error> {
    Render(SetNode(s))
  }

  function TupleText(t: Tuple): Result<string, Error> {
    Render(TupleNode(t))
  }

  /** Each class's empty-container message, as thrown by its renderer. */
  lemma EmptyMessages()
    ensures RenderContainer(New<Member>(MemberTupleShape), MemberText) == Failure(Argument("There are no members in tuple!"))
    ensures RenderContainer(New<Set>(SetTupleShape), SetText) == Failure(Argument("There are no sets in tuple!"))
    ensures RenderContainer(New<Member>(MemberSetShape), MemberText) == Failure(Argument("There are no members in set!"))
    ensures RenderContainer(New<Tuple>(TupleSetShape), TupleText) == Failure(Argument("There are no tuples in set!"))
  {
  }
}
