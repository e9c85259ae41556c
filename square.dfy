/**
 * The quadtree of the client: a square is either one solid colour or a split
 * into four quadrants. Squares are immutable values; editing by path builds a
 * new square. A square converts to and from a JSON value: a solid is its
 * colour name, a split the array of its quadrants in the order nw, ne, sw, se.
 */
module Squares {
  import opened Results
  import opened Lists

  /** The seven colours a solid square may have. */
  datatype Color = White | Pink | Orange | Yellow | Green | Blue | Purple

  /** The name a colour goes by in strings and in JSON. */
  function ColorName(c: Color): string
  {
    match c
    case White => "white"
    case Pink => "pink"
    case Orange => "orange"
    case Yellow => "yellow"
    case Green => "green"
    case Blue => "blue"
    case Purple => "purple"
  }

  /** The ways the operations of this module fail. */
  datatype SquareError =
    | UnknownColor(name: string)   // a string that names no colour
    | PathThroughSolid             // a path with steps left at a solid square
    | SplitArity                   // an array that does not have 4 parts
    | NotASquare                   // neither a string nor an array

  /**
   * Converts a string to the colour it names. Succeeds exactly on the seven
   * colour names, and then the colour found is the one with that name.
   */
  function ToColor(s: string): (r: Result<Color, SquareError>)
    ensures r.Ok? ==> ColorName(r.value) == s
    ensures r.Err? ==> r.error == UnknownColor(s) && forall c :: ColorName(c) != s
  {
    match s
    case "white" => Ok(White)
    case "pink" => Ok(Pink)
    case "orange" => Ok(Orange)
    case "yellow" => Ok(Yellow)
    case "green" => Ok(Green)
    case "blue" => Ok(Blue)
    case "purple" => Ok(Purple)
    case _ => Err(UnknownColor(s))
  }

  /** Every colour is recognised from its own name. */
  lemma ToColorName(c: Color)
    ensures ToColor(ColorName(c)) == Ok(c)
  {
  }

  datatype Square =
    | Solid(color: Color)
    | Split(nw: Square, ne: Square, sw: Square, se: Square)

  datatype Dir = NW | NE | SE | SW

  /** How to get from the root of a square to one of its parts; Nil is the root. */
  type Path = List<Dir>

  /** The quadrant of a split in direction d. */
  function Child(sq: Square, d: Dir): Square
    requires sq.Split?
  {
    match d
    case NW => sq.nw
    case NE => sq.ne
    case SW => sq.sw
    case SE => sq.se
  }

  /** The split sq with its quadrant in direction d replaced by c. */
  function WithChild(sq: Square, d: Dir, c: Square): (r: Square)
    requires sq.Split?
    ensures r.Split? && Child(r, d) == c
    ensures forall e :: e != d ==> Child(r, e) == Child(sq, e)
  {
    match d
    case NW => Split(c, sq.ne, sq.sw, sq.se)
    case NE => Split(sq.nw, c, sq.sw, sq.se)
    case SW => Split(sq.nw, sq.ne, c, sq.se)
    case SE => Split(sq.nw, sq.ne, sq.sw, c)
  }

  /** Levels of splits below the root. */
  function Depth(sq: Square): nat
  {
    match sq
    case Solid(_) => 0
    case Split(nw, ne, sw, se) => 1 + Max(Max(Depth(nw), Depth(ne)), Max(Depth(sw), Depth(se)))
  }

  function Max(a: nat, b: nat): nat
  {
    if a < b then b else a
  }

  /**
   * The part of root at the end of path. Fails when the path still has
   * steps left at a solid square. Each step descends one level, so the part
   * found lies Length(path) levels below the root.
   */
  function FindSquare(path: Path, root: Square): (r: Result<Square, SquareError>)
    ensures path.Nil? ==> r == Ok(root)
    ensures r.Err? ==> r.error == PathThroughSolid
    ensures root.Solid? ==> (r.Ok? <==> path.Nil?)
    ensures r.Ok? ==> Depth(r.value) + Length(path) <= Depth(root)
  {
    match path
    case Nil => Ok(root)
    case Cons(dir, rest) =>
      if root.Solid? then Err(PathThroughSolid)
      else
        match dir
        case NW => FindSquare(rest, root.nw)
        case NE => FindSquare(rest, root.ne)
        case SW => FindSquare(rest, root.sw)
        case SE => FindSquare(rest, root.se)
  }

  /**
   * root with the part at the end of path replaced by sq. It fails on
   * exactly the paths FindSquare fails on; along a step it rebuilds a split
   * whose other three quadrants are the originals.
   */
  function ReplaceSquare(path: Path, sq: Square, root: Square): (r: Result<Square, SquareError>)
    ensures path.Nil? ==> r == Ok(sq)
    ensures r.Ok? <==> FindSquare(path, root).Ok?
    ensures r.Err? ==> r.error == PathThroughSolid
    ensures r.Ok? && path.Cons? ==>
      r.value.Split? && forall e :: e != path.hd ==> Child(r.value, e) == Child(root, e)
  {
    match path
    case Nil => Ok(sq)
    case Cons(dir, rest) =>
      if root.Solid? then Err(PathThroughSolid)
      else
        match dir
        case NW =>
          var nw :- ReplaceSquare(rest, sq, root.nw);
          Ok(Split(nw, root.ne, root.sw, root.se))
        case NE =>
          var ne :- ReplaceSquare(rest, sq, root.ne);
          Ok(Split(root.nw, ne, root.sw, root.se))
        case SW =>
          var sw :- ReplaceSquare(rest, sq, root.sw);
          Ok(Split(root.nw, root.ne, sw, root.se))
        case SE =>
          var se :- ReplaceSquare(rest, sq, root.se);
          Ok(Split(root.nw, root.ne, root.sw, se))
  }

  /** One step of FindSquare on a split: descend into the quadrant named. */
  lemma FindStep(d: Dir, rest: Path, root: Square)
    requires root.Split?
    ensures FindSquare(Cons(d, rest), root) == FindSquare(rest, Child(root, d))
  {
  }

  /** One step of ReplaceSquare on a split: only the quadrant named changes. */
  lemma ReplaceStep(d: Dir, rest: Path, sq: Square, root: Square)
    requires root.Split?
    ensures ReplaceSquare(Cons(d, rest), sq, root) ==
      match ReplaceSquare(rest, sq, Child(root, d))
      case Ok(c) => Ok(WithChild(root, d, c))
      case Err(e) => Err(e)
  {
  }

  /** Replacing along a path that FindSquare resolves puts sq where FindSquare looks. */
  lemma {:induction false} FindAfterReplace(path: Path, sq: Square, root: Square)
    requires FindSquare(path, root).Ok?
    ensures ReplaceSquare(path, sq, root).Ok?
    ensures FindSquare(path, ReplaceSquare(path, sq, root).value) == Ok(sq)
  {
    match path
    case Nil =>
    case Cons(d, rest) =>
      FindStep(d, rest, root);
      FindAfterReplace(rest, sq, Child(root, d));
      ReplaceStep(d, rest, sq, root);
      FindStep(d, rest, ReplaceSquare(path, sq, root).value);
  }

  /** Putting back the part found at a path gives the original square. */
  lemma {:induction false} ReplaceWithFound(path: Path, root: Square)
    requires FindSquare(path, root).Ok?
    ensures ReplaceSquare(path, FindSquare(path, root).value, root) == Ok(root)
  {
    match path
    case Nil =>
    case Cons(d, rest) =>
      FindStep(d, rest, root);
      ReplaceWithFound(rest, Child(root, d));
      ReplaceStep(d, rest, FindSquare(path, root).value, root);
  }

  /** A second replacement at the same path overrides the first. */
  lemma {:induction false} ReplaceTwice(path: Path, a: Square, b: Square, root: Square)
    requires FindSquare(path, root).Ok?
    ensures ReplaceSquare(path, a, root).Ok?
    ensures ReplaceSquare(path, b, ReplaceSquare(path, a, root).value) == ReplaceSquare(path, b, root)
  {
    match path
    case Nil =>
    case Cons(d, rest) =>
      FindStep(d, rest, root);
      ReplaceTwice(rest, a, b, Child(root, d));
      var mid := ReplaceSquare(path, a, root).value;
      ReplaceStep(d, rest, a, root);
      ReplaceStep(d, rest, b, root);
      ReplaceStep(d, rest, b, mid);
      assert WithChild(mid, d, ReplaceSquare(rest, b, Child(root, d)).value)
          == WithChild(root, d, ReplaceSquare(rest, b, Child(root, d)).value);
  }

  /** Two paths that part ways: at some step they go in different directions. */
  predicate Diverge(p: Path, q: Path)
  {
    p.Cons? && q.Cons? && (p.hd != q.hd || Diverge(p.tl, q.tl))
  }

  /** Replacing at one path leaves what lies at a diverging path as it was. */
  lemma {:induction false} ReplaceIsLocal(p: Path, q: Path, sq: Square, root: Square)
    requires FindSquare(p, root).Ok?
    requires Diverge(p, q)
    ensures ReplaceSquare(p, sq, root).Ok?
    ensures FindSquare(q, ReplaceSquare(p, sq, root).value) == FindSquare(q, root)
  {
    var d, e := p.hd, q.hd;
    FindStep(d, p.tl, root);
    ReplaceStep(d, p.tl, sq, root);
    var r := ReplaceSquare(p, sq, root).value;
    FindStep(e, q.tl, root);
    FindStep(e, q.tl, r);
    if d == e {
      ReplaceIsLocal(p.tl, q.tl, sq, Child(root, d));
    }
  }

  /** Finding along p then q is finding along their concatenation. */
  lemma {:induction false} FindConcat(p: Path, q: Path, root: Square)
    ensures FindSquare(Concat(p, q), root) ==
      match FindSquare(p, root)
      case Ok(s) => FindSquare(q, s)
      case Err(e) => Err(e)
  {
    match p
    case Nil =>
    case Cons(d, rest) =>
      if root.Split? {
        FindStep(d, rest, root);
        FindStep(d, Concat(rest, q), root);
        FindConcat(rest, q, Child(root, d));
      }
  }

  /** The JSON values the client exchanges with the server. */
  datatype Json =
    | JStr(s: string)
    | JArr(items: seq<Json>)
    | JNum(n: int)
    | JBool(b: bool)
    | JNull
    | JObj(fields: seq<(string, Json)>)

  /** The position of each quadrant in the JSON array of a split. */
  function Index(d: Dir): (i: nat)
    ensures i < 4
  {
    match d
    case NW => 0
    case NE => 1
    case SW => 2
    case SE => 3
  }

  /**
   * The JSON form of a square: a colour name for a solid, the array of the
   * four quadrants' forms for a split.
   */
  function ToJson(sq: Square): (r: Json)
    ensures sq.Solid? <==> r.JStr?
    ensures sq.Split? <==> r.JArr?
    ensures r.JArr? ==> |r.items| == 4
    ensures sq.Solid? ==> ToColor(r.s) == Ok(sq.color)
    ensures sq.Split? ==> forall d :: r.items[Index(d)] == ToJson(Child(sq, d))
  {
    match sq
    case Solid(c) =>
      ToColorName(c);
      JStr(ColorName(c))
    case Split(nw, ne, sw, se) => JArr([ToJson(nw), ToJson(ne), ToJson(sw), ToJson(se)])
  }

  /**
   * The square a JSON value describes. A string must name a colour, an array
   * must have four parts that each describe a square (read in order, the
   * first failure wins), and anything else fails. What it accepts is exactly
   * the image of ToJson: the square read back serialises to the input.
   */
  function FromJson(data: Json): (r: Result<Square, SquareError>)
    ensures r.Ok? ==> ToJson(r.value) == data
    ensures data.JStr? ==> (r.Ok? <==> exists c :: ColorName(c) == data.s)
    ensures data.JStr? && r.Err? ==> r.error == UnknownColor(data.s)
    ensures data.JArr? && |data.items| != 4 ==> r == Err(SplitArity)
    ensures !data.JStr? && !data.JArr? ==> r == Err(NotASquare)
  {
    match data
    case JStr(s) =>
      var c :- ToColor(s);
      Ok(Solid(c))
    case JArr(items) =>
      if |items| == 4 then
        var nw :- FromJson(items[0]);
        var ne :- FromJson(items[1]);
        var sw :- FromJson(items[2]);
        var se :- FromJson(items[3]);
        assert items == [items[0], items[1], items[2], items[3]];
        Ok(Split(nw, ne, sw, se))
      else
        Err(SplitArity)
    case _ => Err(NotASquare)
  }

  /**
   * The four parts of a split are read in order: when reading fails, the
   * error is that of the first part that fails, and every part before it
   * was read successfully.
   */
  lemma {:induction false} FromJsonFirstFailure(data: Json)
    requires data.JArr? && |data.items| == 4 && FromJson(data).Err?
    ensures exists i :: 0 <= i < 4 && FirstFailureAt(data.items, i, FromJson(data))
  {
    var items := data.items;
    var r := FromJson(data);
    FromJsonParts(data);
    var i := if FromJson(items[0]).Err? then 0
      else if FromJson(items[1]).Err? then 1
      else if FromJson(items[2]).Err? then 2
      else 3;
    assert FromJson(items[i]) == r;
    forall j | 0 <= j < i
      ensures FromJson(items[j]).Ok?
    {
      assert j == 0 || j == 1 || j == 2;
    }
    assert FirstFailureAt(items, i, r);
  }

  /** How FromJson combines the readings of the four parts of an array. */
  lemma {:induction false} FromJsonParts(data: Json)
    requires data.JArr? && |data.items| == 4
    ensures var a, b, c, d := FromJson(data.items[0]), FromJson(data.items[1]),
                              FromJson(data.items[2]), FromJson(data.items[3]);
      FromJson(data) ==
        if a.Err? then a else if b.Err? then b else if c.Err? then c else if d.Err? then d
        else Ok(Split(a.value, b.value, c.value, d.value))
  {
  }

  /** Part i of items reads as r, and every part before it reads successfully. */
  ghost predicate FirstFailureAt(items: seq<Json>, i: nat, r: Result<Square, SquareError>)
    requires i < |items|
  {
    FromJson(items[i]) == r && forall j :: 0 <= j < i ==> FromJson(items[j]).Ok?
  }

  /** Reading back the JSON form of any square gives that square. */
  lemma {:induction false} FromToJson(sq: Square)
    ensures FromJson(ToJson(sq)) == Ok(sq)
  {
    match sq
    case Solid(c) => ToColorName(c);
    case Split(nw, ne, sw, se) =>
      FromToJson(nw);
      FromToJson(ne);
      FromToJson(sw);
      FromToJson(se);
  }

  /** The two-level square of the find example. */
  function Nested(): Square
  {
    Split(Split(Solid(Pink), Solid(Orange), Solid(Blue), Solid(Purple)),
          Solid(Green), Solid(Yellow), Solid(White))
  }

  /** The two-step find of the nested example, and a step into a solid. */
  lemma FindExamples()
    ensures FindSquare(Cons(NW, Cons(NE, Nil)), Nested()) == Ok(Solid(Orange))
    ensures FindSquare(Cons(NW, Nil), Solid(White)) == Err(PathThroughSolid)
  {
  }

  /** A split of four solids serialises to the array of their colour names. */
  lemma ToJsonExample()
    ensures ToJson(Split(Solid(Blue), Solid(Orange), Solid(Purple), Solid(White)))
         == JArr([JStr("blue"), JStr("orange"), JStr("purple"), JStr("white")])
  {
  }

  /** An unknown colour name and a three-part array are both rejected. */
  lemma FromJsonRejects()
    ensures FromJson(JStr("teal")) == Err(UnknownColor("teal"))
    ensures FromJson(JArr([JStr("a"), JStr("b"), JStr("c")])) == Err(SplitArity)
  {
  }
}
