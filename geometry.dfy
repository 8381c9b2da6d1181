/** The geometric value types of the drafting document and the snap result. */
module Geometry {
  import opened Wrappers

  /** A point in document space; `name` is a user-visible label. */
  datatype Point = Point(x: real, y: real, id: string, name: string)

  /** A line holds copies of its two end points. */
  datatype Line = Line(id: string, startPoint: Point, endPoint: Point)

  /** An arc holds copies of its centre, start and end points and its radius. */
  datatype Arc = Arc(id: string, centerPoint: Point, startPoint: Point, endPoint: Point, radius: real)

  /** The five snap kinds a snap point may carry. */
  datatype SnapKind = PointKind | MidpointKind | IntersectionKind | GridKind | AxisKind

  /** The object a snap candidate was derived from. */
  datatype SourceObject = FromPoint(point: Point) | FromLine(line: Line) | FromArc(arc: Arc)

  /** A snap candidate: its position in document space, its kind and, optionally, its source. */
  datatype SnapPoint = SnapPoint(x: real, y: real, kind: SnapKind, source: Option<SourceObject>)
}
