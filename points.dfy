/** A possibly-absent value: `None` stands for a Java `null` reference or for a
    floating-point result that is not a number. */
module Optional {
  datatype Option<+T> = None | Some(value: T)
}

/** A data row paired with the row number it had in the input matrix. */
module Points {
  import opened Vectors

  /** `index` is the original row, or -1 for a computed centroid; nothing checks
      it, and nothing ties the length of `data` to any other point. */
  datatype Point = Point(data: Vector, index: int)

  /** The coordinate vectors of a list of points, in order. */
  function Coords(ps: seq<Point>): (vs: seq<Vector>)
    ensures |vs| == |ps| && forall i :: 0 <= i < |ps| ==> vs[i] == ps[i].data
  {
    seq(|ps|, i requires 0 <= i < |ps| => ps[i].data)
  }

  /** Every row of a table, paired with its row number. */
  function Table(rawData: seq<Vector>): (ps: seq<Point>)
    ensures |ps| == |rawData| && forall i :: 0 <= i < |rawData| ==> ps[i] == Point(rawData[i], i)
  {
    seq(|rawData|, i requires 0 <= i < |rawData| => Point(rawData[i], i))
  }

  lemma CoordsSnoc(ps: seq<Point>, p: Point)
    ensures Coords(ps + [p]) == Coords(ps) + [p.data]
  {
  }

  lemma CoordsAppend(ps: seq<Point>, qs: seq<Point>)
    ensures Coords(ps + qs) == Coords(ps) + Coords(qs)
  {
  }
}
