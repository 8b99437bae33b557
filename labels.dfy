/** The axis labels ("pips") computed in the constructor: a range end whose
    magnitude is at least 1000 is shown in thousands with a "k" suffix. */
module Labels {
  import opened Coords

  /** A label: the value as is, or the value in thousands (shown with "k").
      Turning the number into text is not modelled. */
  datatype Pip = Plain(v: real) | Kilo(thousands: real)

  /** The four corner labels. */
  datatype Pips = Pips(xMin: Pip, xMax: Pip, yMin: Pip, yMax: Pip)

  function Abs(v: real): real {
    if v < 0.0 then -v else v
  }

  /** `Math.abs(v) >= 1000 ? v/1000 + 'k' : v` */
  function PipLabel(v: real): (p: Pip)
    ensures p.Kilo? <==> Abs(v) >= 1000.0
  {
    if Abs(v) >= 1000.0 then Kilo(v / 1000.0) else Plain(v)
  }

  /** The number a label stands for. */
  function Denoted(p: Pip): real {
    match p
    case Plain(v) => v
    case Kilo(t) => t * 1000.0
  }

  /** A label always stands for the value it was made from; an abbreviated
      one shows a number of magnitude at least 1, a plain one a number of
      magnitude under 1000. */
  lemma PipLabelDenotes(v: real)
    ensures Denoted(PipLabel(v)) == v
    ensures PipLabel(v).Kilo? ==> Abs(PipLabel(v).thousands) >= 1.0
    ensures PipLabel(v).Plain? ==> Abs(PipLabel(v).v) < 1000.0
  {
  }

  /** 1500 becomes "1.5k"; 500 and -999 stay as they are; -2000 becomes "-2k". */
  lemma PipLabelExamples()
    ensures PipLabel(1500.0) == Kilo(1.5)
    ensures PipLabel(500.0) == Plain(500.0)
    ensures PipLabel(-999.0) == Plain(-999.0)
    ensures PipLabel(-2000.0) == Kilo(-2.0)
  {
  }

  /** The constructor's `this.pips`: one label per range end. */
  function PipsFor(rangeX: Range, rangeY: Range): (p: Pips)
    ensures Denoted(p.xMin) == rangeX.min && Denoted(p.xMax) == rangeX.max
    ensures Denoted(p.yMin) == rangeY.min && Denoted(p.yMax) == rangeY.max
    ensures p.xMin.Kilo? <==> Abs(rangeX.min) >= 1000.0
    ensures p.xMax.Kilo? <==> Abs(rangeX.max) >= 1000.0
    ensures p.yMin.Kilo? <==> Abs(rangeY.min) >= 1000.0
    ensures p.yMax.Kilo? <==> Abs(rangeY.max) >= 1000.0
  {
    PipLabelDenotes(rangeX.min);
    PipLabelDenotes(rangeX.max);
    PipLabelDenotes(rangeY.min);
    PipLabelDenotes(rangeY.max);
    Pips(PipLabel(rangeX.min), PipLabel(rangeX.max), PipLabel(rangeY.min), PipLabel(rangeY.max))
  }
}
