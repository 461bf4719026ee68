/**
 * `SpaceItemDecoration`: the offsets one list item gets, from the spacing in pixels, the span
 * count, the item's adapter position, the layout manager and the layout direction.
 *
 * All arithmetic is Kotlin `Int` arithmetic: 32-bit, wrapping, with division and remainder
 * truncating toward zero. The spacing arrives already converted to pixels.
 */
module Spacing {
  import opened JavaInt

  datatype Orientation = HORIZONTAL | VERTICAL

  /** The `outRect` the decoration fills in. */
  datatype Rect = Rect(left: Int32, top: Int32, right: Int32, bottom: Int32)

  /** What `super.getItemOffsets` leaves in the rect. */
  const EMPTY_RECT: Rect := Rect(0, 0, 0, 0)

  /** The offset before a span on the cross axis: `spanCurrent * space / spanCount`. */
  function Leading(space: Int32, spanCount: Int32, spanCurrent: Int32): Int32
    requires spanCount != 0
  {
    Div(Mul(spanCurrent, space), spanCount)
  }

  /** The offset after a span on the cross axis: `space - (spanCurrent + 1) * space / spanCount`. */
  function Trailing(space: Int32, spanCount: Int32, spanCurrent: Int32): Int32
    requires spanCount != 0
  {
    Sub(space, Leading(space, spanCount, Add(spanCurrent, 1)))
  }

  /**
   * `calculateMargin`: the cross-axis sides get the span's share of the spacing; the side that
   * faces the previous row or column gets the whole spacing, except in the first one.
   */
  function CalculateMargin(rect: Rect, space: Int32, spanCount: Int32, position: Int32, spanCurrent: Int32,
                           orientation: Orientation, reverse: bool): (r: Rect)
    requires spanCount != 0
    ensures orientation == HORIZONTAL ==>
      && r.top == Leading(space, spanCount, spanCurrent)
      && r.bottom == Trailing(space, spanCount, spanCurrent)
      && r.left == (if !reverse && position >= spanCount then space else rect.left)
      && r.right == (if reverse && position >= spanCount then space else rect.right)
    ensures orientation == VERTICAL ==>
      && r.left == Leading(space, spanCount, spanCurrent)
      && r.right == Trailing(space, spanCount, spanCurrent)
      && r.top == (if !reverse && position >= spanCount then space else rect.top)
      && r.bottom == (if reverse && position >= spanCount then space else rect.bottom)
  {
    var leading := Leading(space, spanCount, spanCurrent);
    var trailing := Trailing(space, spanCount, spanCurrent);
    var spaced := position >= spanCount;
    match orientation
    case HORIZONTAL =>
      var r := rect.(top := leading, bottom := trailing);
      if reverse then (if spaced then r.(right := space) else r)
      else (if spaced then r.(left := space) else r)
    case VERTICAL =>
      var r := rect.(left := leading, right := trailing);
      if reverse then (if spaced then r.(bottom := space) else r)
      else (if spaced then r.(top := space) else r)
  }

  /**
   * The parent's layout manager. `GridLayoutManager` extends `LinearLayoutManager`, so grids
   * take the linear branch and are `LinearFamily` here; the grid branch after it is never
   * reached. `OtherLayout` is any other manager, or none.
   */
  datatype LayoutManager =
    | LinearFamily(orientation: Orientation, reverse: bool)
    | StaggeredGrid(orientation: Orientation, reverse: bool, spanIndex: Int32)
    | OtherLayout

  /** Everything `getItemOffsets` reads about the item besides the decoration's own fields. */
  datatype Item = Item(layout: LayoutManager, adapterPosition: Int32, itemCount: Int32, rtl: bool)

  /**
   * What `getItemOffsets` is handed besides the rect: no view, a view whose parent or state is
   * missing, or a view in a list with the item's data.
   */
  datatype Host = NoView | Detached | Attached(item: Item)

  /**
   * The result of `getItemOffsets`: the rect written, the `ArithmeticException` of `% 0`, or the
   * `NullPointerException` of `super.getItemOffsets` reading the layout params of a missing view.
   */
  datatype Outcome = Offsets(rect: Rect) | DivisionByZero | NullView

  /** The orientation, reversal and span the layout manager dictates. */
  function Placement(item: Item, spanCount: Int32): (p: (Orientation, bool, Int32))
    requires spanCount != 0
    ensures item.layout.LinearFamily? ==> p == (item.layout.orientation, item.layout.reverse, 0)
    ensures item.layout.StaggeredGrid? ==> p == (item.layout.orientation, item.layout.reverse, item.layout.spanIndex)
    ensures item.layout.OtherLayout? ==> p == (VERTICAL, false, Rem(item.adapterPosition, spanCount))
  {
    match item.layout
    case LinearFamily(orientation, reverse) => (orientation, reverse, 0)
    case StaggeredGrid(orientation, reverse, spanIndex) => (orientation, reverse, spanIndex)
    case OtherLayout => (VERTICAL, false, Rem(item.adapterPosition, spanCount))
  }

  /** Right-to-left horizontal lists count positions from the other end. */
  function EffectivePosition(item: Item, orientation: Orientation): Int32
  {
    if item.rtl && orientation == HORIZONTAL then Sub(Sub(item.itemCount, item.adapterPosition), 1)
    else item.adapterPosition
  }

  /**
   * `getItemOffsets`. `super` runs first: it reads the view's layout params, so a missing view
   * throws there, and otherwise it empties the rect. A missing parent or state then returns with
   * the rect empty. Otherwise `position % spanCount` is evaluated before the layout manager is
   * inspected, so a zero span count throws whatever the manager.
   */
  function GetItemOffsets(space: Int32, spanCount: Int32, host: Host): (o: Outcome)
    ensures o.NullView? <==> host.NoView?
    ensures host.Detached? ==> o == Offsets(EMPTY_RECT)
    ensures host.Attached? ==> (o.DivisionByZero? <==> spanCount == 0)
    ensures o.Offsets? && host.Attached? ==>
      var p := Placement(host.item, spanCount);
      o.rect == CalculateMargin(EMPTY_RECT, space, spanCount, EffectivePosition(host.item, p.0), p.2, p.0, p.1)
  {
    match host
    case NoView => NullView
    case Detached => Offsets(EMPTY_RECT)
    case Attached(it) =>
      if spanCount == 0 then DivisionByZero
      else
        var p := Placement(it, spanCount);
        Offsets(CalculateMargin(EMPTY_RECT, space, spanCount, EffectivePosition(it, p.0), p.2, p.0, p.1))
  }

  // ---------------------------------------------------------------------------------------------
  // The cross-axis shares
  // ---------------------------------------------------------------------------------------------

  /** The spacing spread over the spans does not overflow. */
  predicate FitsInInt(space: int, spanCount: int)
  {
    0 <= space <= INT_MAX && 0 < spanCount <= INT_MAX && spanCount * space <= INT_MAX
  }

  lemma MulMonotone(i: nat, n: nat, space: nat)
    requires i <= n
    ensures i * space <= n * space
  {
  }

  lemma DivMonotone(a: nat, b: nat, n: nat)
    requires a <= b && 0 < n
    ensures a / n <= b / n
  {
    var qa, qb := a / n, b / n;
    assert n * qa <= a;
    assert b < n * (qb + 1);
    MulCancel(n, qa, qb + 1);
  }

  lemma MulCancel(n: nat, x: nat, y: nat)
    requires 0 < n && n * x < n * y
    ensures x < y
  {
  }

  /** Without overflow, the leading share of span `i` is the exact floor of `i * space / spanCount`. */
  lemma LeadingExact(space: Int32, spanCount: Int32, i: Int32)
    requires FitsInInt(space, spanCount) && 0 <= i <= spanCount
    ensures Leading(space, spanCount, i) == NatQuot(i * space, spanCount)
    ensures 0 <= Leading(space, spanCount, i) <= space
  {
    MulMonotone(i, spanCount, space);
    assert InRange(i * space);
    QuotOfNonNegatives(i * space, spanCount);
    DivMonotone(i * space, spanCount * space, spanCount);
    assert (spanCount * space) / spanCount == space;
  }

  lemma LeadingOfFirst(space: Int32, spanCount: Int32)
    requires FitsInInt(space, spanCount)
    ensures Leading(space, spanCount, 0) == 0
  {
    LeadingExact(space, spanCount, 0);
  }

  lemma LeadingPastLast(space: Int32, spanCount: Int32)
    requires FitsInInt(space, spanCount)
    ensures Leading(space, spanCount, spanCount) == space
  {
    LeadingExact(space, spanCount, spanCount);
    assert (spanCount * space) / spanCount == space;
  }

  /** Without overflow, the trailing share is what the next span's leading share leaves over. */
  lemma TrailingExact(space: Int32, spanCount: Int32, i: Int32)
    requires FitsInInt(space, spanCount) && 0 <= i < spanCount
    ensures Trailing(space, spanCount, i) == space - Leading(space, spanCount, i + 1)
    ensures 0 <= Trailing(space, spanCount, i) <= space
  {
    LeadingExact(space, spanCount, i + 1);
    assert Add(i, 1) == i + 1;
  }

  /**
   * Each cross-axis offset lies in [0, space]; the first span has no leading offset and the
   * last span no trailing offset.
   */
  lemma CrossAxisBounds(space: Int32, spanCount: Int32, i: Int32)
    requires FitsInInt(space, spanCount) && 0 <= i < spanCount
    ensures 0 <= Leading(space, spanCount, i) <= space
    ensures 0 <= Trailing(space, spanCount, i) <= space
    ensures Leading(space, spanCount, 0) == 0
    ensures Trailing(space, spanCount, spanCount - 1) == 0
  {
    LeadingExact(space, spanCount, i);
    TrailingExact(space, spanCount, i);
    LeadingOfFirst(space, spanCount);
    TrailingExact(space, spanCount, spanCount - 1);
    LeadingPastLast(space, spanCount);
  }

  /** Where two spans meet, their facing offsets add up to exactly the spacing. */
  lemma AdjacentSpansMeet(space: Int32, spanCount: Int32, i: Int32)
    requires FitsInInt(space, spanCount) && 0 <= i && i + 1 < spanCount
    ensures Trailing(space, spanCount, i) + Leading(space, spanCount, i + 1) == space
  {
    TrailingExact(space, spanCount, i);
  }

  /** The cross-axis offsets of all spans add up to `spanCount - 1` spacings: a uniform gutter. */
  lemma {:induction false} GuttersAddUp(space: Int32, spanCount: Int32, k: nat)
    requires FitsInInt(space, spanCount) && 0 <= k < spanCount
    ensures SharesUpTo(space, spanCount, k) == k * space + Leading(space, spanCount, 0) + Trailing(space, spanCount, k as Int32)
    decreases k
  {
    if k > 0 {
      var i: Int32 := k - 1;
      var prev := SharesUpTo(space, spanCount, i as nat);
      var lead, trail, before := Leading(space, spanCount, k as Int32), Trailing(space, spanCount, k as Int32), Trailing(space, spanCount, i);
      GuttersAddUp(space, spanCount, i as nat);
      AdjacentSpansMeet(space, spanCount, i);
      assert SharesUpTo(space, spanCount, k) == prev + lead + trail;
      assert prev == i * space + Leading(space, spanCount, 0) + before;
      assert before + lead == space;
      MulStep(k, space);
    }
  }

  lemma MulStep(k: nat, x: int)
    requires 0 < k
    ensures k * x == (k - 1) * x + x
  {
  }

  /** The leading and trailing offsets of spans 0 through k. */
  function SharesUpTo(space: Int32, spanCount: Int32, k: nat): int
    requires FitsInInt(space, spanCount) && k < spanCount
    decreases k
  {
    var own := Leading(space, spanCount, k as Int32) + Trailing(space, spanCount, k as Int32);
    if k == 0 then own else SharesUpTo(space, spanCount, k - 1) + own
  }

  // ---------------------------------------------------------------------------------------------
  // Main axis, span selection and mirroring
  // ---------------------------------------------------------------------------------------------

  /**
   * The main-axis spacing goes on exactly one side, the one facing the previous row or column,
   * and only from the second row or column on; the opposite side stays as it was.
   */
  lemma MainAxisSpacing(rect: Rect, space: Int32, spanCount: Int32, position: Int32, spanCurrent: Int32,
                        orientation: Orientation, reverse: bool)
    requires spanCount != 0
    ensures var r := CalculateMargin(rect, space, spanCount, position, spanCurrent, orientation, reverse);
      var (before, after, oldBefore, oldAfter) :=
        if orientation == HORIZONTAL then (r.left, r.right, rect.left, rect.right)
        else (r.top, r.bottom, rect.top, rect.bottom);
      var (facing, opposite, oldOpposite) :=
        if reverse then (after, before, oldBefore) else (before, after, oldAfter);
      && opposite == oldOpposite
      && (position >= spanCount ==> facing == space)
      && (position < spanCount ==> r == CalculateMargin(rect, space, spanCount, position, spanCurrent, orientation, !reverse))
  {
  }

  /**
   * Linear lists and grids always use span 0: no leading cross-axis offset, and with a single
   * span no trailing one either.
   */
  lemma LinearUsesFirstSpan(space: Int32, spanCount: Int32, item: Item)
    requires FitsInInt(space, spanCount) && item.layout.LinearFamily?
    ensures var r := GetItemOffsets(space, spanCount, Attached(item)).rect;
      var (leading, trailing) :=
        if item.layout.orientation == VERTICAL then (r.left, r.right) else (r.top, r.bottom);
      leading == 0 && trailing == Trailing(space, spanCount, 0) && (spanCount == 1 ==> trailing == 0)
  {
    LeadingOfFirst(space, spanCount);
    if spanCount == 1 {
      CrossAxisBounds(space, spanCount, 0);
    }
  }

  /** With an unknown layout manager the span is `position % spanCount`, a valid span for a valid position. */
  lemma DefaultSpanIsRemainder(spanCount: Int32, item: Item)
    requires 0 < spanCount && item.layout.OtherLayout? && item.adapterPosition >= 0
    ensures var span := Placement(item, spanCount).2;
      0 <= span < spanCount && span == item.adapterPosition % spanCount
  {
    var q := Quot(item.adapterPosition, spanCount);
    QuotOfNonNegatives(item.adapterPosition, spanCount);
  }

  /** Mirroring a position of a right-to-left horizontal list stays among the items and undoes itself. */
  lemma MirrorInvolution(item: Item)
    requires item.rtl && 0 <= item.adapterPosition < item.itemCount
    ensures var m := EffectivePosition(item, HORIZONTAL);
      && 0 <= m < item.itemCount
      && m == item.itemCount - item.adapterPosition - 1
      && EffectivePosition(item.(adapterPosition := m), HORIZONTAL) == item.adapterPosition
      && EffectivePosition(item, VERTICAL) == item.adapterPosition
  {
    assert InRange(item.itemCount) && InRange(item.adapterPosition);
  }

  /**
   * Without a parent or state the rect stays empty and nothing throws, even with a zero span
   * count; without a view `super` throws first.
   */
  lemma DetachedIsEmpty(space: Int32)
    ensures GetItemOffsets(space, 0, Detached) == Offsets(EMPTY_RECT)
    ensures GetItemOffsets(space, 0, NoView) == NullView
  {
  }

  /** Three spans with 10 pixels of spacing: shares 0|7, 3|4 and 6|0, meeting as 7 + 3 and 4 + 6. */
  lemma ThreeSpanExample()
    ensures Leading(10, 3, 0) == 0 && Trailing(10, 3, 0) == 7
    ensures Leading(10, 3, 1) == 3 && Trailing(10, 3, 1) == 4
    ensures Leading(10, 3, 2) == 6 && Trailing(10, 3, 2) == 0
  {
    QuotOfNonNegatives(0, 3);
    QuotOfNonNegatives(10, 3);
    QuotOfNonNegatives(20, 3);
    QuotOfNonNegatives(30, 3);
  }
}
