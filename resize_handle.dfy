/** The column resize handle (src/components/ui/ResizeHandle.jsx): the
    guard at the start of a drag and the width a drag sets. Widths and
    mouse positions are whole pixels. */
module ResizeHandle {
  import opened Domain

  const DefaultMinWidth: int := 200
  const DefaultMaxWidth: int := 500

  /** A drag under way: where the mouse and the column width started. */
  datatype Drag = Drag(startX: int, startWidth: int)

  /** The mouse-down guard: a missing or zero starting width starts no
      drag. */
  function MouseDown(startX: int, startWidth: Option<int>): (d: Option<Drag>)
    ensures d.Some? <==> startWidth.Some? && startWidth.value != 0
    ensures d.Some? ==> d.value == Drag(startX, startWidth.value)
  {
    if startWidth.None? || startWidth.value == 0 then None else Some(Drag(startX, startWidth.value))
  }

  /** `Math.max(minWidth, Math.min(maxWidth, width))`: never below the
      minimum, not above the maximum when the bounds are ordered, and the
      width itself when it is already within them. */
  function Clamp(minWidth: int, maxWidth: int, width: int): (r: int)
    ensures r >= minWidth
    ensures minWidth <= maxWidth ==> r <= maxWidth
    ensures minWidth <= width <= maxWidth ==> r == width
    ensures r == minWidth || r == maxWidth || r == width
  {
    var capped := if maxWidth < width then maxWidth else width;
    if minWidth > capped then minWidth else capped
  }

  /** The width set for the mouse at `clientX`. */
  function NewWidth(drag: Drag, clientX: int, minWidth: int, maxWidth: int): int {
    Clamp(minWidth, maxWidth, drag.startWidth + clientX - drag.startX)
  }

  /** Moving the mouse further right never makes the column narrower. */
  lemma NewWidthMonotone(drag: Drag, x: int, y: int, minWidth: int, maxWidth: int)
    requires x <= y
    ensures NewWidth(drag, x, minWidth, maxWidth) <= NewWidth(drag, y, minWidth, maxWidth)
  {
  }

  /** With the default bounds every width set lies between 200 and 500. */
  lemma DefaultBoundsHold(drag: Drag, clientX: int)
    ensures DefaultMinWidth <= NewWidth(drag, clientX, DefaultMinWidth, DefaultMaxWidth) <= DefaultMaxWidth
  {
  }

  /** Clamping twice is clamping once. */
  lemma ClampIdempotent(minWidth: int, maxWidth: int, width: int)
    requires minWidth <= maxWidth
    ensures Clamp(minWidth, maxWidth, Clamp(minWidth, maxWidth, width)) == Clamp(minWidth, maxWidth, width)
  {
  }
}
