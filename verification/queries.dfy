/** The statement-level classes: cubes (MdxCube.cs), axes (MdxAxis.cs),
    declarations (MdxDeclaration.cs) and the query itself (MdxQuery.cs). */
module Queries {
  import opened Wrappers
  import opened Text
  import opened Nodes

  // ---------------------------------------------------------------------
  // Cubes

  datatype Cube = Cube(titles: seq<string>)

  const NewCube := Cube([])

  /** `Titled` appends titles in order. */
  function CubeTitled(c: Cube, titles: seq<string>): (r: Cube)
    ensures r.titles == c.titles + titles
  {
    c.(titles := c.titles + titles)
  }

  /** `[t1].[t2]`, the same bracketed path a member's identifier prints. */
  function RenderCube(c: Cube): (r: string)
    ensures r == RenderPath(c.titles)
  {
    "[" + Join("].[", c.titles) + "]"
  }

  /** A title appended to a cube goes inside its path: `[a]` becomes
      `[a].[b]`; an untitled cube prints as `[]`. */
  lemma CubeTitleAppended(c: Cube, t: string)
    ensures RenderCube(NewCube) == "[]"
    ensures c.titles != [] ==>
              RenderCube(CubeTitled(c, [t])) == RenderCube(c)[..|RenderCube(c)| - 1] + "].[" + t + "]"
  {
    assert RenderCube(NewCube) == "[" + "" + "]";
    PathAppended(c.titles, t);
  }

  // ---------------------------------------------------------------------
  // Axes

  /** An axis: its title (null until `Titled`), its slicer (null until
      `WithSlicer`), the `NON EMPTY` flag and the dimension properties. */
  datatype Axis = Axis(title: Option<string>, slicer: Option<Tuple>, nonEmpty: bool, properties: seq<string>)

  const NewAxis := Axis(None, None, false, [])

  /** `Titled` and `WithSlicer` replace; `WithProperties` appends; the two
      flag setters set the flag to a constant. */
  function AxisTitled(a: Axis, title: string): (r: Axis)
    ensures r.title == Some(title) && r.slicer == a.slicer && r.nonEmpty == a.nonEmpty
            && r.properties == a.properties
  {
    a.(title := Some(title))
  }

  function WithSlicer(a: Axis, slicer: Tuple): (r: Axis)
    ensures r.slicer == Some(slicer) && r.title == a.title && r.nonEmpty == a.nonEmpty
            && r.properties == a.properties
  {
    a.(slicer := Some(slicer))
  }

  function AsNonEmpty(a: Axis): (r: Axis)
    ensures r.nonEmpty && r.title == a.title && r.slicer == a.slicer && r.properties == a.properties
  {
    a.(nonEmpty := true)
  }

  function AsEmpty(a: Axis): (r: Axis)
    ensures !r.nonEmpty && r.title == a.title && r.slicer == a.slicer && r.properties == a.properties
  {
    a.(nonEmpty := false)
  }

  function WithProperties(a: Axis, properties: seq<string>): (r: Axis)
    ensures r.properties == a.properties + properties && r.title == a.title
            && r.slicer == a.slicer && r.nonEmpty == a.nonEmpty
  {
    a.(properties := a.properties + properties)
  }

  /** A possibly-null slicer as text. */
  function SlicerText(slicer: Option<Tuple>): Result<string, Error> {
    match slicer
    case None => Success("")
    case Some(t) => Render(TupleNode(t))
  }

  /** `[NON EMPTY ]slicer[ DIMENSION PROPERTIES p1, p2] ON title`. */
  function RenderAxis(a: Axis): Result<string, Error> {
    var slicer :- SlicerText(a.slicer);
    Success((if a.nonEmpty then "NON EMPTY " else "") + slicer + AxisTail(a))
  }

  /** What follows the slicer: the properties, if any, and the title. */
  function AxisTail(a: Axis): string {
    (if a.properties == [] then "" else " DIMENSION PROPERTIES " + Join(", ", a.properties))
    + " ON " + OrEmpty(a.title)
  }

  /** The flags and the properties only add fixed text around the slicer:
      `NON EMPTY ` in front. An axis renders exactly when its slicer does,
      and the two flag setters undo each other. */
  lemma AxisRendering(a: Axis)
    ensures RenderAxis(a).Success? <==> SlicerText(a.slicer).Success?
    ensures RenderAxis(AsNonEmpty(a)).Success? ==>
              RenderAxis(AsNonEmpty(a)).value == "NON EMPTY " + RenderAxis(AsEmpty(a)).value
    ensures AsEmpty(AsNonEmpty(a)) == AsEmpty(a) && AsNonEmpty(AsEmpty(a)) == AsNonEmpty(a)
  {
    if SlicerText(a.slicer).Success? {
      var s := SlicerText(a.slicer).value;
      var tail := AxisTail(a);
      assert AxisTail(AsNonEmpty(a)) == tail && AxisTail(AsEmpty(a)) == tail;
      assert RenderAxis(AsNonEmpty(a)) == Success("NON EMPTY " + s + tail);
      assert RenderAxis(AsEmpty(a)) == Success("" + s + tail);
      assert "" + s + tail == s + tail;
    }
  }

  /** The first dimension property goes between the slicer and ` ON `. */
  lemma AxisPropertyAdded(a: Axis, p: string)
    requires a.properties == [] && RenderAxis(a).Success?
    ensures RenderAxis(WithProperties(a, [p])).value
            == (if a.nonEmpty then "NON EMPTY " else "") + SlicerText(a.slicer).value
               + " DIMENSION PROPERTIES " + p + " ON " + OrEmpty(a.title)
  {
    var b := WithProperties(a, [p]);
    assert b.properties == [p];
    assert Join(", ", b.properties) == p;
    assert AxisTail(b) == " DIMENSION PROPERTIES " + p + " ON " + OrEmpty(a.title);
  }

  /** A fresh axis with only a title renders as ` ON title`: the null slicer
      prints as nothing. */
  lemma TitledAxisRendering(t: string)
    ensures RenderAxis(AxisTitled(NewAxis, t)) == Success(" ON " + t)
  {
    assert SlicerText(None) == Success("");
    assert OrEmpty(Some(t)) == t;
    assert AxisTail(AxisTitled(NewAxis, t)) == "" + " ON " + t;
    assert RenderAxis(AxisTitled(NewAxis, t)) == Success("" + "" + ("" + " ON " + t));
    assert "" + "" + ("" + " ON " + t) == " ON " + t;
  }

  // ---------------------------------------------------------------------
  // Declarations

  /** A `WITH` declaration: a title path and the expression or tuple it
      names (null until `As`). */
  datatype Declaration = Declaration(titles: seq<string>, expression: Option<Node>)

  const NewDeclaration := Declaration([], None)

  function DeclarationTitled(d: Declaration, titles: seq<string>): (r: Declaration)
    ensures r.titles == d.titles + titles && r.expression == d.expression
  {
    d.(titles := d.titles + titles)
  }

  /** Both `As` overloads replace what the declaration names. */
  function DeclaredAs(d: Declaration, x: Node): (r: Declaration)
    requires x.ExpressionNode? || x.TupleNode?
    ensures r.titles == d.titles && r.expression == Some(x)
  {
    d.(expression := Some(x))
  }

  /** `MEMBER [t] AS e` when it names an expression, `SET [t] AS x`
      otherwise. */
  function RenderDeclaration(d: Declaration): Result<string, Error> {
    var body :- match d.expression
                case None => Success("")
                case Some(x) => Render(x);
    Success((if d.expression.Some? && d.expression.value.ExpressionNode? then "MEMBER " else "SET ")
            + RenderPath(d.titles) + " AS " + body)
  }

  /** A declaration is a `MEMBER` exactly when it names an expression; the
      text after `AS` is what it names. */
  lemma DeclarationKeyword(d: Declaration, x: Node)
    requires x.ExpressionNode? || x.TupleNode?
    requires Render(x).Success?
    ensures var r := RenderDeclaration(DeclaredAs(d, x));
            r.Success?
            && (x.ExpressionNode? <==> r.value[..7] == "MEMBER ")
            && r.value[|r.value| - |Render(x).value|..] == Render(x).value
  {
    var keyword := if x.ExpressionNode? then "MEMBER " else "SET ";
    assert RenderDeclaration(DeclaredAs(d, x))
           == Success(keyword + RenderPath(d.titles) + " AS " + Render(x).value);
    KeywordText(keyword, RenderPath(d.titles), Render(x).value);
  }

  /** The text of a declaration shows its keyword at the front and what it
      names at the back. */
  lemma KeywordText(keyword: string, path: string, body: string)
    requires keyword == "MEMBER " || keyword == "SET "
    requires |path| >= 1 && path[0] == '['
    ensures var t := keyword + path + " AS " + body;
            |t| >= 7 && (keyword == "MEMBER " <==> t[..7] == "MEMBER ") && t[|t| - |body|..] == body
  {
    var t := keyword + path + " AS " + body;
    if keyword == "SET " {
      assert t[4] == path[0] == '[';
      assert t[..7][4] != "MEMBER "[4];
    } else {
      assert t[..7] == keyword;
    }
  }

  /** A declaration that names nothing yet renders as a `SET` with nothing
      after `AS`. */
  lemma UnboundDeclaration(d: Declaration)
    requires d.expression.None?
    ensures RenderDeclaration(d) == Success("SET " + RenderPath(d.titles) + " AS ")
  {
    var unbound := "SET " + RenderPath(d.titles) + " AS ";
    assert RenderDeclaration(d) == Success(unbound + "");
    assert unbound + "" == unbound;
  }

  // ---------------------------------------------------------------------
  // Queries

  /** A query: its `WITH` declarations, axes, cube sources or inner query,
      and the tuples of its `WHERE` clause. */
  datatype Query = Query(declarations: seq<Declaration>, axes: seq<Axis>, cubes: seq<Cube>,
                         inner: Option<Query>, whereTuples: seq<Tuple>)

  const NewQuery := Query([], [], [], None, [])

  /** The parser's `With`: appends a declaration. */
  function WithDeclaration(q: Query, d: Declaration): (r: Query)
    ensures r.declarations == q.declarations + [d]
    ensures r.(declarations := q.declarations) == q
  {
    q.(declarations := q.declarations + [d])
  }

  /** `On`: a null axis is rejected, any other appended. */
  function On(q: Query, axis: Option<Axis>): (r: Result<Query, Error>)
    ensures axis.None? <==> r.Failure?
    ensures r.Failure? ==> r.error == ArgumentNull("axis")
    ensures r.Success? ==> r.value.axes == q.axes + [axis.value] && r.value.(axes := q.axes) == q
  {
    match axis
    case None => Failure(ArgumentNull("axis"))
    case Some(a) => Success(q.(axes := q.axes + [a]))
  }

  /** `From(cube)` drops the inner query and appends the cube. */
  function FromCube(q: Query, c: Cube): (r: Query)
    ensures r.cubes == q.cubes + [c] && r.inner.None?
    ensures r.(cubes := q.cubes, inner := q.inner) == q
  {
    q.(inner := None, cubes := q.cubes + [c])
  }

  /** `From(query)` drops the cubes and sets the inner query. */
  function FromQuery(q: Query, inner: Query): (r: Query)
    ensures r.cubes == [] && r.inner == Some(inner)
    ensures r.(cubes := q.cubes, inner := q.inner) == q
  {
    q.(cubes := [], inner := Some(inner))
  }

  /** `Where` appends a tuple to the `WHERE` clause. */
  function Where(q: Query, t: Tuple): (r: Query)
    ensures r.whereTuples == q.whereTuples + [t] && r.(whereTuples := q.whereTuples) == q
  {
    q.(whereTuples := q.whereTuples + [t])
  }

  /** A query never has both a cube and an inner query as its source. */
  predicate SingleSource(q: Query) {
    q.cubes == [] || q.inner.None?
  }

  /** Every mutator keeps a single source, and the last `From` decides which
      kind it is. */
  lemma MutatorsKeepSingleSource(q: Query, a: Axis, c: Cube, inner: Query, t: Tuple, d: Declaration)
    requires SingleSource(q)
    ensures SingleSource(NewQuery)
    ensures On(q, Some(a)).Success? && SingleSource(On(q, Some(a)).value)
    ensures SingleSource(FromCube(q, c)) && SingleSource(FromQuery(q, inner))
    ensures SingleSource(Where(q, t)) && SingleSource(WithDeclaration(q, d))
    ensures FromCube(FromQuery(q, inner), c).cubes == [c] && FromCube(FromQuery(q, inner), c).inner.None?
    ensures FromQuery(FromCube(q, c), inner) == FromQuery(q, inner)
  {
  }

  function AxisTexts(axes: seq<Axis>): (r: seq<Result<string, Error>>)
    ensures |r| == |axes| && forall i :: 0 <= i < |axes| ==> r[i] == RenderAxis(axes[i])
  {
    seq(|axes|, i requires 0 <= i < |axes| => RenderAxis(axes[i]))
  }

  function CubeTexts(cubes: seq<Cube>): (r: seq<string>)
    ensures |r| == |cubes| && forall i :: 0 <= i < |cubes| ==> r[i] == RenderCube(cubes[i])
  {
    seq(|cubes|, i requires 0 <= i < |cubes| => RenderCube(cubes[i]))
  }

  function TupleTexts(ts: seq<Tuple>): (r: seq<Result<string, Error>>)
    ensures |r| == |ts| && forall i :: 0 <= i < |ts| ==> r[i] == Render(TupleNode(ts[i]))
  {
    seq(|ts|, i requires 0 <= i < |ts| => Render(TupleNode(ts[i])))
  }

  /** The ` WHERE { ( t1, t2 ) }` suffix, empty without tuples. */
  function WhereText(tuples: seq<string>): string {
    if tuples == [] then "" else " WHERE { ( " + Join(", ", tuples) + " ) }"
  }

  /** The statement text from its rendered parts. */
  function Assemble(axes: seq<string>, source: string, tuples: seq<string>): string {
    "SELECT " + Join(", ", axes) + " FROM " + source + WhereText(tuples)
  }

  /** `SELECT axes FROM source[ WHERE { ( tuples ) }]`, where the source is
      the cube list or `( inner )`. The axes are rendered first, then the
      `WHERE` tuples, and the inner query last, as it is only turned into
      text while the result is being formatted; the first failure wins.
      The declarations are not printed. */
  function RenderQuery(q: Query): Result<string, Error>
    decreases q
  {
    var axes :- Collect(AxisTexts(q.axes));
    var tuples :- Collect(TupleTexts(q.whereTuples));
    if q.inner.None? then Success(Assemble(axes, Join(", ", CubeTexts(q.cubes)), tuples))
    else
      var text :- RenderQuery(q.inner.value);
      Success(Assemble(axes, "( " + text + " )", tuples))
  }

  /** The source text of a query that renders. */
  function QuerySource(q: Query): (r: string)
    requires RenderQuery(q).Success?
    ensures q.inner.None? ==> r == Join(", ", CubeTexts(q.cubes))
    ensures q.inner.Some? ==> RenderQuery(q.inner.value).Success?
                              && r == "( " + RenderQuery(q.inner.value).value + " )"
  {
    match q.inner
    case None => Join(", ", CubeTexts(q.cubes))
    case Some(inner) => "( " + RenderQuery(inner).value + " )"
  }

  /** A query renders exactly when its axes, its `WHERE` tuples and its
      inner query do, as the assembly of their texts. */
  lemma QueryRendering(q: Query)
    ensures RenderQuery(q).Success?
            <==> Collect(AxisTexts(q.axes)).Success? && Collect(TupleTexts(q.whereTuples)).Success?
                 && (q.inner.Some? ==> RenderQuery(q.inner.value).Success?)
    ensures RenderQuery(q).Success? ==>
              RenderQuery(q).value
              == Assemble(Collect(AxisTexts(q.axes)).value, QuerySource(q), Collect(TupleTexts(q.whereTuples)).value)
  {
  }

  /** Appending one tuple text to the assembled statement. */
  lemma AssembleWhereAppended(axes: seq<string>, source: string, tuples: seq<string>, t: string)
    ensures tuples == [] ==>
              Assemble(axes, source, tuples + [t]) == Assemble(axes, source, []) + " WHERE { ( " + t + " ) }"
    ensures tuples != [] ==>
              Assemble(axes, source, tuples + [t])
              == Assemble(axes, source, []) + " WHERE { ( " + Join(", ", tuples) + ", " + t + " ) }"
  {
    var head := Assemble(axes, source, []);
    var rest := WhereText(tuples + [t]);
    AssembleSplit(axes, source, tuples + [t]);
    assert Assemble(axes, source, tuples + [t]) == head + rest;
    if tuples != [] {
      WhereSnoc(tuples, t);
      var j := Join(", ", tuples);
      assert rest == " WHERE { ( " + j + ", " + t + " ) }";
      ConcatAssoc(head, " WHERE { ( ", j, ", ", t, " ) }");
    } else {
      WhereSnoc(tuples, t);
      assert rest == " WHERE { ( " + t + " ) }";
      ConcatAssoc(head, " WHERE { ( ", t, "", "", " ) }");
    }
  }

  lemma AssembleSplit(axes: seq<string>, source: string, tuples: seq<string>)
    ensures Assemble(axes, source, tuples) == Assemble(axes, source, []) + WhereText(tuples)
  {
    assert Assemble(axes, source, []) == "SELECT " + Join(", ", axes) + " FROM " + source;
  }

  lemma WhereSnoc(tuples: seq<string>, t: string)
    ensures tuples == [] ==> WhereText(tuples + [t]) == " WHERE { ( " + t + " ) }"
    ensures tuples != [] ==> WhereText(tuples + [t]) == " WHERE { ( " + Join(", ", tuples) + ", " + t + " ) }"
  {
    JoinSnoc(", ", tuples, t);
  }

  /** Adding a `WHERE` tuple to a query that renders: the first one adds a
      ` WHERE { ( t ) }` clause to the text without one, each later one joins
      the list inside the clause. */
  lemma WhereAppended(q: Query, t: Tuple)
    requires RenderQuery(q).Success? && Render(TupleNode(t)).Success?
    ensures RenderQuery(Where(q, t)).Success?
    ensures q.whereTuples == [] ==>
              RenderQuery(Where(q, t)).value == RenderQuery(q).value + " WHERE { ( " + Render(TupleNode(t)).value + " ) }"
    ensures q.whereTuples != [] ==>
              RenderQuery(Where(q, t)).value
              == RenderQuery(q.(whereTuples := [])).value + " WHERE { ( "
                 + Join(", ", Collect(TupleTexts(q.whereTuples)).value) + ", " + Render(TupleNode(t)).value + " ) }"
  {
    var q' := Where(q, t);
    var x := Render(TupleNode(t));
    assert TupleTexts(q'.whereTuples) == TupleTexts(q.whereTuples) + [x];
    CollectSnoc(TupleTexts(q.whereTuples), x);
    var tuples := Collect(TupleTexts(q.whereTuples)).value;
    assert |tuples| == |q.whereTuples|;
    assert AxisTexts(q'.axes) == AxisTexts(q.axes);
    var bare := q.(whereTuples := []);
    assert AxisTexts(bare.axes) == AxisTexts(q.axes);
    assert TupleTexts(bare.whereTuples) == [];
    assert Collect(TupleTexts(bare.whereTuples)) == Success([]);
    QueryRendering(q);
    QueryRendering(q');
    QueryRendering(bare);
    assert QuerySource(q') == QuerySource(q) == QuerySource(bare);
    var axes := Collect(AxisTexts(q.axes)).value;
    assert RenderQuery(bare).value == Assemble(axes, QuerySource(q), []);
    AssembleWhereAppended(axes, QuerySource(q), tuples, x.value);
  }

  /** Nesting: a query whose source is an inner query prints that query's
      text in parentheses after `FROM`, and fails exactly when the inner
      query (or one of its own parts) does. */
  lemma InnerQueryRendering(q: Query, inner: Query)
    requires q.whereTuples == [] && Collect(AxisTexts(q.axes)).Success?
    ensures RenderQuery(FromQuery(q, inner)).Success? <==> RenderQuery(inner).Success?
    ensures RenderQuery(inner).Success? ==>
              RenderQuery(FromQuery(q, inner)).value
              == "SELECT " + Join(", ", Collect(AxisTexts(q.axes)).value) + " FROM ( " + RenderQuery(inner).value + " )"
  {
    var q' := FromQuery(q, inner);
    assert q'.axes == q.axes && q'.whereTuples == [];
    assert Collect(TupleTexts(q'.whereTuples)) == Success([]);
    QueryRendering(q');
    if RenderQuery(inner).Success? {
      var axes := Collect(AxisTexts(q.axes)).value;
      var text := RenderQuery(inner).value;
      assert QuerySource(q') == "( " + text + " )";
      InnerSourceText(axes, text);
    }
  }

  /** The text of a statement over an inner query without `WHERE` tuples. */
  lemma InnerSourceText(axes: seq<string>, text: string)
    ensures Assemble(axes, "( " + text + " )", []) == "SELECT " + Join(", ", axes) + " FROM ( " + text + " )"
  {
    assert WhereText([]) == "";
  }

  /** The shape the parser builds: every slicer and `WHERE` tuple is a
      well-formed tree, and so is the inner query. */
  predicate QueryWellFormed(q: Query)
    decreases q
  {
    (forall i :: 0 <= i < |q.axes| ==> q.axes[i].slicer.Some? ==> WellFormed(TupleNode(q.axes[i].slicer.value)))
    && (forall i :: 0 <= i < |q.whereTuples| ==> WellFormed(TupleNode(q.whereTuples[i])))
    && (q.inner.Some? ==> QueryWellFormed(q.inner.value))
  }

  /** A well-formed query always renders. */
  lemma {:induction false} WellFormedQueryRenders(q: Query)
    requires QueryWellFormed(q)
    ensures RenderQuery(q).Success?
    decreases q
  {
    forall i | 0 <= i < |q.axes|
      ensures RenderAxis(q.axes[i]).Success?
    {
      if q.axes[i].slicer.Some? {
        WellFormedRenders(TupleNode(q.axes[i].slicer.value));
      }
    }
    forall i | 0 <= i < |q.whereTuples|
      ensures Render(TupleNode(q.whereTuples[i])).Success?
    {
      WellFormedRenders(TupleNode(q.whereTuples[i]));
    }
    if q.inner.Some? {
      WellFormedQueryRenders(q.inner.value);
    }
    QueryRendering(q);
  }
}
