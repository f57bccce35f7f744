/** Channel types, channels, and the literal table that names each type in a file. */
module Channels {
  import opened Wrappers

  /** Channel::Type, in the declaration order of the enum. */
  datatype ChannelType = XPosition | YPosition | ZPosition | ZRotation | XRotation | YRotation

  datatype Axis = X | Y | Z

  /** A channel is one animated degree of freedom of the joint it targets (an arena index). */
  datatype Channel = Channel(channelType: ChannelType, targetJoint: nat)

  predicate IsPosition(t: ChannelType) {
    t == XPosition || t == YPosition || t == ZPosition
  }

  function AxisOf(t: ChannelType): Axis {
    match t
    case XPosition | XRotation => X
    case YPosition | YRotation => Y
    case ZPosition | ZRotation => Z
  }

  function AxisLetter(a: Axis): char {
    match a
    case X => 'X'
    case Y => 'Y'
    case Z => 'Z'
  }

  /** All channel types, in the order of the enum. */
  function AllChannelTypes(): (ts: seq<ChannelType>)
    ensures |ts| == 6
    ensures forall t: ChannelType :: ts[IndexOf(t)] == t
    ensures forall i, j :: 0 <= i < j < |ts| ==> ts[i] != ts[j]
  {
    [XPosition, YPosition, ZPosition, ZRotation, XRotation, YRotation]
  }

  /** The position of a type in the enum. */
  function IndexOf(t: ChannelType): (i: nat)
    ensures i < 6
  {
    match t
    case XPosition => 0
    case YPosition => 1
    case ZPosition => 2
    case ZRotation => 3
    case XRotation => 4
    case YRotation => 5
  }

  /**
   * operator<<(ostream&, Channel::Type): the literal of a type is its axis letter
   * followed by "position" or "rotation".
   */
  function TypeLiteral(t: ChannelType): (s: string)
    ensures s == [AxisLetter(AxisOf(t))] + (if IsPosition(t) then "position" else "rotation")
  {
    match t
    case XPosition => "Xposition"
    case YPosition => "Yposition"
    case ZPosition => "Zposition"
    case XRotation => "Xrotation"
    case YRotation => "Yrotation"
    case ZRotation => "Zrotation"
  }

  /** The six literals are pairwise distinct. */
  lemma TypeLiteralInjective(a: ChannelType, b: ChannelType)
    ensures TypeLiteral(a) == TypeLiteral(b) ==> a == b
  {
    if TypeLiteral(a) == TypeLiteral(b) {
      assert TypeLiteral(a)[0] == TypeLiteral(b)[0];
      assert TypeLiteral(a)[1] == TypeLiteral(b)[1];
    }
  }

  /**
   * The reader's table from literal to type (case-sensitive, tried in the order
   * Xposition, Yposition, Zposition, Zrotation, Xrotation, Yrotation); any other
   * string is rejected.
   */
  function ParseChannelType(s: string): (r: Option<ChannelType>)
    ensures r.Some? ==> TypeLiteral(r.value) == s
    ensures r.None? ==> forall t :: TypeLiteral(t) != s
  {
    if s == "Xposition" then Some(XPosition)
    else if s == "Yposition" then Some(YPosition)
    else if s == "Zposition" then Some(ZPosition)
    else if s == "Zrotation" then Some(ZRotation)
    else if s == "Xrotation" then Some(XRotation)
    else if s == "Yrotation" then Some(YRotation)
    else None
  }

  /** Reading the printed literal of a type gives the type back. */
  lemma ParseTypeLiteral(t: ChannelType)
    ensures ParseChannelType(TypeLiteral(t)) == Some(t)
  {
    var r := ParseChannelType(TypeLiteral(t));
    if r.Some? {
      TypeLiteralInjective(r.value, t);
    }
  }
}
