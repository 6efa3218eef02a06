/**
 Where `openPopover` places the offers popover: 92% of the viewport wide but at most 420 px,
 centred under the clicked cell, and pushed back inside a 12 px margin on either side, the
 right one winning when both cannot hold.
 */
module Popover {
  import opened JsRuntime

  const PAD: real := 12.0
  const MAX_WIDTH: real := 420.0
  const GAP: real := 8.0

  /** The part of `getBoundingClientRect()` that is read. */
  datatype Rect = Rect(left: real, width: real, bottom: real)

  datatype Point = Point(x: real, y: real)

  /** The `popover` state: `product` and `city` are `None` for the initial `null`. */
  datatype PopoverState = PopoverState(open: bool, product: Option<string>, city: Option<string>, pos: Point)

  const CLOSED: PopoverState := PopoverState(false, None, None, Point(0.0, 0.0))

  /** `Math.min` */
  function MathMin(a: real, b: real): (r: real)
    ensures r <= a && r <= b && (r == a || r == b)
  {
    if a <= b then a else b
  }

  /** `Math.max` */
  function MathMax(a: real, b: real): (r: real)
    ensures r >= a && r >= b && (r == a || r == b)
  {
    if a >= b then a else b
  }

  /** `popW` */
  function PopoverWidth(vw: real): (w: real)
    ensures w <= MAX_WIDTH && w <= 0.92 * vw
    ensures w == MAX_WIDTH || w == 0.92 * vw
  {
    MathMin(vw * 0.92, MAX_WIDTH)
  }

  /** The x at which the popover would be centred under the cell. */
  function Centred(vw: real, rect: Rect): real {
    rect.left + rect.width / 2.0 - PopoverWidth(vw) / 2.0
  }

  /** `pos` for a viewport `vw` wide scrolled down by `scrollY`. */
  function PopoverPosition(vw: real, scrollY: real, rect: Rect): (p: Point)
    ensures p.x <= vw - PopoverWidth(vw) - PAD
    ensures vw - PopoverWidth(vw) >= 2.0 * PAD ==> p.x >= PAD
    ensures PAD <= Centred(vw, rect) <= vw - PopoverWidth(vw) - PAD ==> p.x == Centred(vw, rect)
    ensures Centred(vw, rect) < PAD && vw - PopoverWidth(vw) >= 2.0 * PAD ==> p.x == PAD
    ensures Centred(vw, rect) > vw - PopoverWidth(vw) - PAD ==> p.x == vw - PopoverWidth(vw) - PAD
    ensures vw - PopoverWidth(vw) < 2.0 * PAD ==> p.x == vw - PopoverWidth(vw) - PAD
    ensures p.y == rect.bottom + GAP + scrollY
  {
    var w := PopoverWidth(vw);
    Point(MathMin(MathMax(Centred(vw, rect), PAD), vw - w - PAD), rect.bottom + GAP + scrollY)
  }

  /** From 300 px on the whole popover, margins included, lies inside the viewport. */
  lemma {:induction false} WideViewportFits(vw: real, scrollY: real, rect: Rect)
    requires vw >= 300.0
    ensures var x := PopoverPosition(vw, scrollY, rect).x;
      PAD <= x && x + PopoverWidth(vw) + PAD <= vw
  {
    var w := PopoverWidth(vw);
    assert vw - w >= 2.0 * PAD by {
      if w == 0.92 * vw {
        assert vw - w == 0.08 * vw;
      }
    }
  }

  /** Below 300 px the two margins cannot both hold, and the popover sits against the right
      one. */
  lemma {:induction false} NarrowViewportHugsRight(vw: real, scrollY: real, rect: Rect)
    requires 0.0 <= vw < 300.0
    ensures PopoverPosition(vw, scrollY, rect).x == vw - PopoverWidth(vw) - PAD
  {
    var w := PopoverWidth(vw);
    assert w == 0.92 * vw;
    assert vw - w - PAD < PAD;
  }

  /** The state `openPopover(product, city, rect)` stores. */
  function Opened(product: string, city: string, vw: real, scrollY: real, rect: Rect): PopoverState {
    PopoverState(true, Some(product), Some(city), PopoverPosition(vw, scrollY, rect))
  }
}
