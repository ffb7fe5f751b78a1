/** The scan table of the front end: a data grid over a very large data
    model, whose mouse handler decides from a hit test whether a press
    resizes a row or column, selects cells, or (on a row header, which is
    drawn as a checkbox) tells the state service which scan was clicked.
    Grid coordinates are integers; the pixel offsets of the hit test are
    reals.  `Infinity` and the grid's merged-cell groups are not needed by
    the parts modelled here. */
module ScanTable {
  import opened Wrappers

  /** The scan fields, in declaration order: the body's columns. */
  const Fields: seq<string> := ["id", "age", "weight", "sex"]

  /** The body's row count. */
  const BodyRows: int := 1000000000000

  /** The grid regions a hit test can report; `Unknown` is any other value,
      which the region type excludes. */
  datatype Region = Body | RowHeader | ColumnHeader | CornerHeader | Void | Unknown(name: string)

  predicate IsHeader(region: Region)
  {
    region == RowHeader || region == ColumnHeader || region == CornerHeader
  }

  /** `rowCount`: the body has 10^12 rows, every other region one. */
  function RowCount(region: Region): (r: int)
    ensures r >= 1 && (r == BodyRows <==> region == Body) && (region != Body ==> r == 1)
  {
    if region == Body then BodyRows else 1
  }

  /** `columnCount`: one body column per scan field, one for every other
      region. */
  function ColumnCount(region: Region): (r: int)
    ensures r >= 1 && (region == Body ==> r == |Fields|) && (region != Body ==> r == 1)
  {
    if region == Body then |Fields| else 1
  }

  // ----------------------------------------------- number formatting

  function DigitChar(d: nat): (c: char)
    requires d < 10
    ensures '0' <= c <= '9' && c as int - '0' as int == d
  {
    (d + '0' as int) as char
  }

  predicate IsDigits(s: string)
  {
    forall k | 0 <= k < |s| :: '0' <= s[k] <= '9'
  }

  /** The decimal digits of a natural number, without leading zeros. */
  function NatToString(n: nat): (s: string)
    ensures s != [] && IsDigits(s)
  {
    if n < 10 then [DigitChar(n)] else NatToString(n / 10) + [DigitChar(n % 10)]
  }

  /** A JavaScript number's text in a template literal, for integers. */
  function IntToString(i: int): (s: string)
    ensures s != [] && ',' !in s
  {
    if i < 0 then "-" + NatToString(-i) else NatToString(i)
  }

  /** The value of a string of decimal digits. */
  function ParseNat(s: string): nat
    requires s != [] && IsDigits(s)
  {
    var last := (s[|s| - 1] as int - '0' as int) as nat;
    if |s| == 1 then last else ParseNat(s[..|s| - 1]) * 10 + last
  }

  function ParseInt(s: string): int
    requires s != []
    requires s[0] == '-' ==> |s| >= 2 && IsDigits(s[1..])
    requires s[0] != '-' ==> IsDigits(s)
  {
    if s[0] == '-' then -(ParseNat(s[1..]) as int) else ParseNat(s)
  }

  lemma {:induction false} NatRoundTrip(n: nat)
    ensures ParseNat(NatToString(n)) == n
  {
    if n >= 10 {
      NatRoundTrip(n / 10);
      var s := NatToString(n);
      assert s[..|s| - 1] == NatToString(n / 10);
    }
  }

  /** Integer text reads back as the integer, so two integers with the
      same text are equal. */
  lemma IntRoundTrip(i: int)
    ensures var s := IntToString(i);
      && (s[0] == '-' ==> |s| >= 2 && IsDigits(s[1..]))
      && (s[0] != '-' ==> IsDigits(s))
      && ParseInt(s) == i
  {
    if i < 0 {
      NatRoundTrip(-i);
      assert IntToString(i)[1..] == NatToString(-i);
    } else {
      NatRoundTrip(i);
    }
  }

  // ---------------------------------------------------------- cell text

  /** `data`: the text of a cell. */
  function Data(region: Region, row: int, column: int): (r: string)
    ensures region == CornerHeader <==> r == []
    ensures region == ColumnHeader ==> r == if 0 <= column < |Fields| then Fields[column] else "undefined"
  {
    if region == RowHeader then "R: " + IntToString(row) + ", " + IntToString(column)
    else if region == ColumnHeader then (if 0 <= column < |Fields| then Fields[column] else "undefined")
    else if region == CornerHeader then ""
    else "(" + IntToString(row) + ", " + IntToString(column) + ")"
  }

  /** In `p + a + ", " + b + q` with a comma-free `a`, the first comma
      after `p` ends `a`. */
  lemma CommaAt(p: string, a: string, b: string, q: string, m: nat)
    requires ',' !in a && m <= |a|
    ensures (p + a + ", " + b + q)[|p| + m] == ',' <==> m == |a|
  {
    if m < |a| {
      assert (p + a + ", " + b + q)[|p| + m] == a[m];
    }
  }

  /** Two texts `p + a + ", " + b + q` with comma-free `a`s are equal only
      when their parts are. */
  lemma SplitAtComma(p: string, a1: string, b1: string, a2: string, b2: string, q: string)
    requires ',' !in a1 && ',' !in a2
    requires p + a1 + ", " + b1 + q == p + a2 + ", " + b2 + q
    ensures a1 == a2 && b1 == b2
  {
    var t1, t2 := p + a1 + ", " + b1 + q, p + a2 + ", " + b2 + q;
    var m := if |a1| <= |a2| then |a1| else |a2|;
    CommaAt(p, a1, b1, q, m);
    CommaAt(p, a2, b2, q, m);
    assert a1 == t1[|p|..|p| + |a1|] == t2[|p|..|p| + |a2|] == a2;
    assert b1 == t1[|p| + |a1| + 2..|t1| - |q|] == t2[|p| + |a2| + 2..|t2| - |q|] == b2;
  }

  /** Different body cells, and different row-header cells, show different
      text: the text names its cell. */
  lemma DataNamesCell(region: Region, r1: int, c1: int, r2: int, c2: int)
    requires region == Body || region == RowHeader
    requires Data(region, r1, c1) == Data(region, r2, c2)
    ensures r1 == r2 && c1 == c2
  {
    var p, q := if region == Body then "(" else "R: ", if region == Body then ")" else "";
    assert Data(region, r1, c1) == p + IntToString(r1) + ", " + IntToString(c1) + q;
    assert Data(region, r2, c2) == p + IntToString(r2) + ", " + IntToString(c2) + q;
    SplitAtComma(p, IntToString(r1), IntToString(c1), IntToString(r2), IntToString(c2), q);
    IntRoundTrip(r1);
    IntRoundTrip(r2);
    IntRoundTrip(c1);
    IntRoundTrip(c2);
  }

  // ----------------------------------------------------------- hit test

  datatype Handle = Left | Right | Top | Bottom | NoHandle

  /** A hit test: region, row and column hit, the offset into the hit
      cell and the cell's size. */
  datatype Hit = Hit(region: Region, row: int, column: int, x: real, y: real, width: real, height: real)

  /** The resize rule shared by the three header regions: near the leading
      edge of a cell that has a predecessor, or near the trailing edge,
      first horizontally, then vertically. */
  function HeaderHandle(hit: Hit): (h: Handle)
    ensures h == Left ==> hit.column > 0 && hit.x <= 5.0
    ensures h == Right ==> hit.width - hit.x <= 6.0
    ensures h == Top ==> hit.row > 0 && hit.y <= 5.0
    ensures h == Bottom ==> hit.height - hit.y <= 6.0
    ensures (h == Top || h == Bottom) ==> !(hit.column > 0 && hit.x <= 5.0) && hit.width - hit.x > 6.0
    ensures h == NoHandle <==>
      && !(hit.column > 0 && hit.x <= 5.0) && hit.width - hit.x > 6.0
      && !(hit.row > 0 && hit.y <= 5.0) && hit.height - hit.y > 6.0
  {
    if hit.column > 0 && hit.x <= 5.0 then Left
    else if hit.width - hit.x <= 6.0 then Right
    else if hit.row > 0 && hit.y <= 5.0 then Top
    else if hit.height - hit.y <= 6.0 then Bottom
    else NoHandle
  }

  /** `resizeHandleForHitTest`: the header rule on header regions, no
      handle on the body and the void, and `"unreachable"` thrown for any
      other region. */
  function ResizeHandleForHitTest(hit: Hit): (r: Result<Handle, string>)
    ensures r.Failure? <==> hit.region.Unknown?
    ensures r.Failure? ==> r.error == "unreachable"
    ensures (hit.region == Body || hit.region == Void) ==> r == Success(NoHandle)
    ensures IsHeader(hit.region) ==> r == Success(HeaderHandle(hit))
  {
    match hit.region
    case CornerHeader => Success(HeaderHandle(hit))
    case ColumnHeader => Success(HeaderHandle(hit))
    case RowHeader => Success(HeaderHandle(hit))
    case Body => Success(NoHandle)
    case Void => Success(NoHandle)
    case Unknown(_) => Failure("unreachable")
  }

  // --------------------------------------------------------- mouse down

  datatype ClearMode = ClearNone | ClearCurrent | ClearAll

  /** The arguments of `model.select`. */
  datatype Selection = Selection(r1: int, c1: int, r2: int, c2: int, cursorRow: int, cursorColumn: int, clear: ClearMode)

  /** What a press starts. */
  datatype Press =
    | Ignored
    | NoSelectionModel
    | Select(selection: Selection)
    | ColumnResize(columnRegion: Region, index: int)
    | RowResize(rowRegion: Region, index: int)
    | HeaderSelect(region: Region, row: int, column: int)

  /** A press: the scan id sent to the state service, if any, and what
      the press starts. */
  datatype Click = Click(sent: Option<string>, press: Press)

  /** The selection a body click makes: with the accelerator key a new
      single cell added to the selections, with shift the rectangle from
      the selection cursor to the hit cell replacing the current
      selection, otherwise a single cell replacing all selections.  In
      every case the hit cell is the far corner of the rectangle and the
      cursor is its anchor corner. */
  function BodySelection(row: int, column: int, accel: bool, shift: bool, cursorRow: int, cursorColumn: int): (s: Selection)
    ensures s.r2 == row && s.c2 == column && s.cursorRow == s.r1 && s.cursorColumn == s.c1
    ensures s.clear == (if accel then ClearNone else if shift then ClearCurrent else ClearAll)
    ensures (s.r1, s.c1) == if !accel && shift then (cursorRow, cursorColumn) else (row, column)
  {
    if accel then Selection(row, column, row, column, row, column, ClearNone)
    else if shift then Selection(cursorRow, cursorColumn, row, column, cursorRow, cursorColumn, ClearCurrent)
    else Selection(row, column, row, column, row, column, ClearAll)
  }

  /** `onMouseDown`, for the grid of this table (its only custom renderer
      is the row headers' checkbox, whose id is the cell text).  A press
      on the void does nothing; a row-header press first sends the cell's
      scan id, and throws without a state service; a body press selects;
      a header press near an edge resizes the section before or at the
      hit, and is otherwise a header selection; a press on a region the
      grid does not know reaches `resizeHandleForHitTest` and throws
      there.  `cursor` is the selection model's cursor, `None` when the
      grid has no selection model. */
  function OnMouseDown(hit: Hit, accel: bool, shift: bool, cursor: Option<(int, int)>, hasService: bool): (r: Result<Click, string>)
    ensures r.Failure? <==> (hit.region == RowHeader && !hasService) || hit.region.Unknown?
    ensures hit.region.Unknown? ==> r == Failure("unreachable")
    ensures r.Success? && hit.region == RowHeader ==> r.value.sent == Some(Data(RowHeader, hit.row, hit.column))
    ensures r.Success? && hit.region != RowHeader ==> r.value.sent.None?
    ensures hit.region == Void ==> r == Success(Click(None, Ignored))
    ensures r.Success? && hit.region == Body ==>
      r.value.press == if cursor.None? then NoSelectionModel
        else Select(BodySelection(hit.row, hit.column, accel, shift, cursor.value.0, cursor.value.1))
  {
    if hit.region == Void then Success(Click(None, Ignored))
    else
      var id := if hit.region == RowHeader then Data(RowHeader, hit.row, hit.column) else "";
      if hit.region == RowHeader && (id == "" || !hasService) then Failure("Did not find ID or stateService not defined")
      else
        var sent := if hit.region == RowHeader then Some(id) else None;
        match PressFor(hit, accel, shift, cursor)
        case Success(press) => Success(Click(sent, press))
        case Failure(e) => Failure(e)
  }

  /** The press part of `onMouseDown`, after the checkbox logic: every
      region but the body goes through `resizeHandleForHitTest`, whose
      failure is passed on. */
  function PressFor(hit: Hit, accel: bool, shift: bool, cursor: Option<(int, int)>): Result<Press, string>
  {
    if hit.region == Body then
      match cursor
      case None => Success(NoSelectionModel)
      case Some((cr, cc)) => Success(Select(BodySelection(hit.row, hit.column, accel, shift, cr, cc)))
    else
      match ResizeHandleForHitTest(hit)
      case Failure(e) => Failure(e)
      case Success(handle) =>
        if handle == Left || handle == Right then
          Success(ColumnResize(if hit.region == ColumnHeader then Body else RowHeader, if handle == Left then hit.column - 1 else hit.column))
        else if handle == Top || handle == Bottom then
          Success(RowResize(if hit.region == RowHeader then Body else ColumnHeader, if handle == Top then hit.row - 1 else hit.row))
        else if cursor.None? then Success(NoSelectionModel)
        else Success(HeaderSelect(hit.region, hit.row, hit.column))
  }

  /** A header press that resizes names an existing section: the leading
      handle is only offered when there is a section before the hit one,
      so the resized index is never negative for a hit on the grid.  The
      section is in the body for the header's own axis and in the header
      otherwise. */
  lemma ResizeTargetsExistingSection(hit: Hit, accel: bool, shift: bool, cursor: Option<(int, int)>, hasService: bool)
    requires IsHeader(hit.region) && hit.row >= 0 && hit.column >= 0
    requires OnMouseDown(hit, accel, shift, cursor, hasService).Success?
    ensures var p := OnMouseDown(hit, accel, shift, cursor, hasService).value.press;
      && (p.ColumnResize? ==> p.index >= 0 && p.index <= hit.column && (p.columnRegion == Body <==> hit.region == ColumnHeader))
      && (p.RowResize? ==> p.index >= 0 && p.index <= hit.row && (p.rowRegion == Body <==> hit.region == RowHeader))
      && (p.ColumnResize? || p.RowResize? <==> ResizeHandleForHitTest(hit).value != NoHandle)
  {
  }

  /** Every row-header cell has text, so with a state service a row-header
      press always sends its scan id. */
  lemma RowHeaderPressSends(hit: Hit, accel: bool, shift: bool, cursor: Option<(int, int)>)
    requires hit.region == RowHeader
    ensures OnMouseDown(hit, accel, shift, cursor, true).Success?
  {
  }
}
