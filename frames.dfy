/**
 * A column-oriented data frame and the in-place cleaning helpers
 * `clean_dates` and `clean_numbers`, which convert every column whose
 * lower-cased name contains "date" (respectively "num") and leave the other
 * columns alone.  Parsing a single cell (`pd.to_datetime` / `pd.to_numeric`
 * with `errors='coerce'`) is not modelled: it is passed in as a function that
 * returns `None` for a value it cannot parse.
 */
module Frames {
  import opened Wrappers
  import Text

  /** A cell: raw text as read from the file, a timestamp (only its year is
      ever used), or a number; `None` is NaT / NaN. */
  datatype Cell = Raw(text: string) | Stamp(year: Option<int>) | Number(value: Option<int>)

  datatype Column = Column(name: string, cells: seq<Cell>)

  /** `pd.to_datetime(..., errors='coerce')` on one cell: a timestamp is kept as it is. */
  function ToStamp(parse: Cell -> Option<int>): Cell -> Cell
  {
    (c: Cell) => if c.Stamp? then c else Stamp(parse(c))
  }

  /** `pd.to_numeric(..., errors='coerce')` on one cell: a number is kept as it is. */
  function ToNumber(parse: Cell -> Option<int>): Cell -> Cell
  {
    (c: Cell) => if c.Number? then c else Number(parse(c))
  }

  /** The column-selection test `key in c.lower()`. */
  predicate Selected(name: string, key: string)
  {
    Text.Contains(Text.Lower(name), key)
  }

  function ConvertColumn(col: Column, convert: Cell -> Cell): Column
  {
    Column(col.name, seq(|col.cells|, j requires 0 <= j < |col.cells| => convert(col.cells[j])))
  }

  /** The frame after converting, in place, every column whose name selects
      `key`: every column keeps its name and length, each cell of a selected
      column is converted, and every other column is left as it was. */
  function Converted(cols: seq<Column>, key: string, convert: Cell -> Cell): (r: seq<Column>)
    ensures |r| == |cols|
    ensures forall i :: 0 <= i < |cols| ==> r[i].name == cols[i].name && |r[i].cells| == |cols[i].cells|
    ensures forall i, j :: 0 <= i < |cols| && Selected(cols[i].name, key) && 0 <= j < |cols[i].cells| ==>
      r[i].cells[j] == convert(cols[i].cells[j])
    ensures forall i :: 0 <= i < |cols| && !Selected(cols[i].name, key) ==> r[i] == cols[i]
  {
    seq(|cols|, i requires 0 <= i < |cols| =>
      if Selected(cols[i].name, key) then ConvertColumn(cols[i], convert) else cols[i])
  }

  /** `clean_dates`: every cell of a column whose lower-cased name contains
      "date" becomes a timestamp, the one `parse` gives (a cell that already
      is a timestamp is kept); the other columns are left as they were. */
  lemma CleanDatesShape(cols: seq<Column>, parse: Cell -> Option<int>)
    ensures var r := Converted(cols, "date", ToStamp(parse));
      && (forall i, j :: 0 <= i < |cols| && Selected(cols[i].name, "date") && 0 <= j < |cols[i].cells| ==>
            r[i].cells[j] == if cols[i].cells[j].Stamp? then cols[i].cells[j] else Stamp(parse(cols[i].cells[j])))
      && (forall i :: 0 <= i < |cols| && !Selected(cols[i].name, "date") ==> r[i] == cols[i])
  {
  }

  /** `clean_numbers`: every cell of a column whose lower-cased name contains
      "num" becomes a number, the one `parse` gives (a cell that already is a
      number is kept); the other columns are left as they were. */
  lemma CleanNumbersShape(cols: seq<Column>, parse: Cell -> Option<int>)
    ensures var r := Converted(cols, "num", ToNumber(parse));
      && (forall i, j :: 0 <= i < |cols| && Selected(cols[i].name, "num") && 0 <= j < |cols[i].cells| ==>
            r[i].cells[j] == if cols[i].cells[j].Number? then cols[i].cells[j] else Number(parse(cols[i].cells[j])))
      && (forall i :: 0 <= i < |cols| && !Selected(cols[i].name, "num") ==> r[i] == cols[i])
  {
  }

  /** Running `clean_dates` a second time changes nothing. */
  lemma CleanDatesIdempotent(cols: seq<Column>, parse: Cell -> Option<int>)
    ensures Converted(Converted(cols, "date", ToStamp(parse)), "date", ToStamp(parse))
         == Converted(cols, "date", ToStamp(parse))
  {
    var once := Converted(cols, "date", ToStamp(parse));
    var twice := Converted(once, "date", ToStamp(parse));
    forall i | 0 <= i < |cols|
      ensures twice[i] == once[i]
    {
      if Selected(cols[i].name, "date") {
        assert twice[i].cells == once[i].cells;
      }
    }
  }

  /** Running `clean_numbers` a second time changes nothing. */
  lemma CleanNumbersIdempotent(cols: seq<Column>, parse: Cell -> Option<int>)
    ensures Converted(Converted(cols, "num", ToNumber(parse)), "num", ToNumber(parse))
         == Converted(cols, "num", ToNumber(parse))
  {
    var once := Converted(cols, "num", ToNumber(parse));
    var twice := Converted(once, "num", ToNumber(parse));
    forall i | 0 <= i < |cols|
      ensures twice[i] == once[i]
    {
      if Selected(cols[i].name, "num") {
        assert twice[i].cells == once[i].cells;
      }
    }
  }

  /** A data frame whose columns are reassigned in place. */
  class Frame {
    var columns: seq<Column>

    constructor (columns: seq<Column>)
      ensures this.columns == columns
    {
      this.columns := columns;
    }

    /** Reassign, one after the other, every column whose name selects `key`. */
    method ConvertWhere(key: string, convert: Cell -> Cell)
      modifies this
      ensures columns == Converted(old(columns), key, convert)
    {
      var i := 0;
      while i < |columns|
        invariant 0 <= i <= |columns| == |old(columns)|
        invariant forall k :: 0 <= k < i ==> columns[k] == Converted(old(columns), key, convert)[k]
        invariant forall k :: i <= k < |columns| ==> columns[k] == old(columns)[k]
      {
        if Selected(columns[i].name, key) {
          columns := columns[i := ConvertColumn(columns[i], convert)];
        }
        i := i + 1;
      }
    }

    /** `clean_dates(df)`. */
    method CleanDates(parse: Cell -> Option<int>)
      modifies this
      ensures columns == Converted(old(columns), "date", ToStamp(parse))
    {
      ConvertWhere("date", ToStamp(parse));
    }

    /** `clean_numbers(df)`. */
    method CleanNumbers(parse: Cell -> Option<int>)
      modifies this
      ensures columns == Converted(old(columns), "num", ToNumber(parse))
    {
      ConvertWhere("num", ToNumber(parse));
    }
  }
}
