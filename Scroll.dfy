/** The scroll arithmetic of `Behavior.ensureHighlightVisible`: the rendered
    rows and the scrollable container, reduced to their integer geometry. */
module Scroll {
  import opened Items

  /** A rendered `.ui-select-choices-row`: its offset from the top of the
      list and its height. */
  datatype Row = Row(offsetTop: int, clientHeight: int)

  /** The `.ui-select-choices-content` element: its scroll offset, its
      visible height and the rows rendered inside it. */
  class Container {
    var scrollTop: int
    const offsetHeight: int
    const rows: seq<Row>

    constructor (scrollTop: int, offsetHeight: int, rows: seq<Row>)
      ensures this.scrollTop == scrollTop && this.offsetHeight == offsetHeight && this.rows == rows
    {
      this.scrollTop := scrollTop;
      this.offsetHeight := offsetHeight;
      this.rows := rows;
    }
  }

  /** `posY`: the bottom edge of a row measured from the top of the view. */
  function BottomInView(row: Row, scrollTop: int): int
  {
    row.offsetTop + row.clientHeight - scrollTop
  }

  /** The new scroll offset once the active row (at `activeIndex`, None when
      the index is `undefined`) has been brought into view of a container of
      visible height `height`. */
  function Reconcile(scrollTop: int, height: int, rows: seq<Row>, activeIndex: Option<int>): (r: int)
    // no resolvable row: nothing moves
    ensures (activeIndex.None? || !(0 <= activeIndex.value < |rows|)) ==> r == scrollTop
    ensures activeIndex.Some? && 0 <= activeIndex.value < |rows| ==>
      var row := rows[activeIndex.value];
      var posY := BottomInView(row, scrollTop);
      // a row whose bottom is below the view: scroll down until its bottom is the view's bottom
      && (posY > height ==> r > scrollTop && BottomInView(row, r) == height)
      // a row whose top is above the view: scroll up until its top is the view's top
      && (posY <= height && posY < row.clientHeight ==> r < scrollTop && row.offsetTop - r == 0)
      // otherwise, the boundary posY == height included, nothing moves
      && (row.clientHeight <= posY <= height ==> r == scrollTop)
  {
    match activeIndex
    case None => scrollTop
    case Some(i) =>
      if i < 0 || i >= |rows| then scrollTop
      else
        var posY := BottomInView(rows[i], scrollTop);
        if posY > height then scrollTop + (posY - height)
        else if posY < rows[i].clientHeight then scrollTop - (rows[i].clientHeight - posY)
        else scrollTop
  }

  /** When the row fits in the view, reconciling twice is reconciling once. */
  lemma ReconcileIdempotent(scrollTop: int, height: int, rows: seq<Row>, i: nat)
    requires i < |rows| && rows[i].clientHeight <= height
    ensures var once := Reconcile(scrollTop, height, rows, Some(i));
      Reconcile(once, height, rows, Some(i)) == once
  {
  }

  /** A row taller than the view is not stable: a second reconciliation
      scrolls back up to the row's top. */
  lemma ReconcileTallRowMovesTwice()
    ensures var rows := [Row(0, 20)];
      && Reconcile(0, 10, rows, Some(0)) == 10
      && Reconcile(Reconcile(0, 10, rows, Some(0)), 10, rows, Some(0)) == 0
  {
  }
}
