/** Shrinking an image to a long-edge budget. */
module LongEdge {
  import opened Common
  import opened Geometry

  function CeilDiv(a: nat, b: nat): nat
    requires b > 0
  {
    (a + b - 1) / b
  }

  function Longest(size: PixelSize): nat {
    if size.width < size.height then size.height else size.width
  }

  function AtLeastOne(n: nat): nat {
    if n < 1 then 1 else n
  }

  function FitLongEdge(size: PixelSize, edge: nat): Option<PixelSize> {
    if size.width == 0 || size.height == 0 || edge == 0 then None
    else if Longest(size) <= edge then Some(size)
    else
      var w, h := CeilDiv(size.width * edge, Longest(size)), CeilDiv(size.height * edge, Longest(size));
      if w > U32_MAX || h > U32_MAX then None else Some(PixelSize(AtLeastOne(w), AtLeastOne(h)))
  }

  /** Scaling a side by edge over longest: positive, no longer than before, in budget, rounded up by less than one. */
  lemma ScaledSide(v: nat, edge: nat, longest: nat)
    requires 0 < v <= longest && 0 < edge < longest
    ensures var r := CeilDiv(v * edge, longest);
      && 1 <= r <= v && r <= edge && (v == longest ==> r == edge)
      && v * edge <= r * longest < v * edge + longest
  {
    var p, r := v * edge, CeilDiv(v * edge, longest);
    Division(p + longest - 1, longest);
    Scaled(1, v, edge);
    assert p <= longest * edge && p <= v * longest by { Scaled(v, longest, edge); Scaled(edge, longest, v); }
    if r > edge { Below(edge, r, longest); }
    if r > v { Below(v, r, longest); }
    if v == longest && r < edge { Below(r, edge, longest); }
  }

  lemma Division(a: nat, b: nat)
    requires b > 0
    ensures a / b * b <= a < a / b * b + b
  {
  }

  lemma Scaled(a: nat, b: nat, c: nat)
    requires a <= b
    ensures a * c <= b * c
  {
  }

  /** A larger multiplier gives at least one more multiple. */
  lemma Below(a: nat, b: nat, c: nat)
    requires a < b
    ensures a * c + c <= b * c
  {
    assert (a + 1) * c <= b * c;
    assert (a + 1) * c == a * c + c;
  }

  /**
   Nothing only for an empty image or budget. Otherwise an image that fits is untouched, and any
   other is shrunk so that its long edge is the budget exactly and each side is off by less than a pixel.
   */
  lemma FitsTheBudget(size: PixelSize, edge: nat)
    requires Sized(size) && IsU32(edge)
    ensures FitLongEdge(size, edge).None? <==> size.width == 0 || size.height == 0 || edge == 0
    ensures FitLongEdge(size, edge).Some? ==>
      var fit := FitLongEdge(size, edge).value;
      && 0 < fit.width <= size.width && 0 < fit.height <= size.height
      && Longest(fit) == (if Longest(size) <= edge then Longest(size) else edge)
      && (Longest(size) > edge ==>
            && size.width * edge <= fit.width * Longest(size) < size.width * edge + Longest(size)
            && size.height * edge <= fit.height * Longest(size) < size.height * edge + Longest(size))
      && FitLongEdge(fit, edge) == Some(fit)
  {
    if size.width > 0 && size.height > 0 && edge > 0 && Longest(size) > edge {
      ScaledSide(size.width, edge, Longest(size));
      ScaledSide(size.height, edge, Longest(size));
      hide CeilDiv;
    }
  }
}
