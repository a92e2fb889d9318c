/**
 * The uploaded sheet and the column mapping chosen for it, the lookup of a
 * mapped column (`get_series`), and the date stage: the date column must
 * exist, is parsed with the format hint when one is given, and must yield at
 * least one date.
 */
module Frame {
  import opened Cells

  /** A sheet: a number of rows and, for each column name, that column's cells. */
  datatype Table = Table(height: nat, columns: map<string, seq<Cell>>) {
    /** Every column has one cell per row. */
    predicate WellFormed() {
      forall name :: name in columns ==> |columns[name]| == height
    }
  }

  /**
   * The column chosen for each field, or none. The date column and the format
   * hint are typed in by the user; the task column is optional in the sidebar.
   */
  datatype Mapping = Mapping(
    member: Option<string>,
    date: Option<string>,
    task: Option<string>,
    quality: Option<string>,
    revision: Option<string>,
    completed: Option<string>,
    ontime: Option<string>,
    efficiency: Option<string>,
    manhours: Option<string>,
    dateFormatHint: string)

  /** Why a run stops before any aggregate is built. */
  datatype Error =
    | DateColumnNotFound(name: Option<string>)
    | NoParsableDates

  /** `col and col in df.columns`: a name that is given, not empty, and present in the sheet. */
  predicate IsMapped(t: Table, col: Option<string>) {
    col.Some? && col.value != "" && col.value in t.columns
  }

  /**
   * `get_series`: the mapped column when the name is usable, otherwise a
   * column of `len(df)` missing cells.
   */
  function GetSeries(t: Table, col: Option<string>): (r: seq<Cell>)
    requires t.WellFormed()
    ensures |r| == t.height
    ensures IsMapped(t, col) ==> r == t.columns[col.value]
    ensures !IsMapped(t, col) ==> forall i :: 0 <= i < |r| ==> r[i] == Blank
  {
    if IsMapped(t, col) then t.columns[col.value] else seq(t.height, _ => Blank)
  }

  /** `pd.to_datetime(column, errors='coerce')`: one date or NaT per cell. */
  type FreeFormParse = f: seq<Cell> -> seq<Option<Date>> | forall col :: |f(col)| == |col|
    witness (col: seq<Cell>) => seq(|col|, _ => None)

  /**
   * `pd.to_datetime(column, format=hint, errors='coerce')`: one date or NaT per
   * cell, or no column at all when the call raises (an unusable format).
   */
  type FormatParse = f: (string, seq<Cell>) -> Option<seq<Option<Date>>> |
    forall hint, col :: f(hint, col).Some? ==> |f(hint, col).value| == |col|
    witness (hint: string, col: seq<Cell>) => None

  /** The date-parsing library, which this model does not look into. */
  datatype DateParsers = DateParsers(freeForm: FreeFormParse, withFormat: FormatParse)

  /**
   * The `try`/`except` around the date parsing: a hint that is not blank once
   * stripped is tried as a format, and anything else, or a format that raises,
   * falls back to free-form parsing. The hint is passed on unstripped.
   */
  function ChooseDates(p: DateParsers, hint: string, col: seq<Cell>): (r: seq<Option<Date>>)
    ensures |r| == |col|
    ensures Strip(hint) != "" && p.withFormat(hint, col).Some? ==> r == p.withFormat(hint, col).value
    ensures Strip(hint) == "" || p.withFormat(hint, col).None? ==> r == p.freeForm(col)
  {
    if Strip(hint) != "" then
      match p.withFormat(hint, col)
      case Some(dates) => dates
      case None => p.freeForm(col)
    else
      p.freeForm(col)
  }

  predicate AllMissing<T>(xs: seq<Option<T>>) {
    forall i :: 0 <= i < |xs| ==> xs[i].None?
  }

  /**
   * The date stage: the named date column must be in the sheet, and the
   * parsed column must hold at least one date; an empty sheet therefore fails
   * too, since every entry of an empty column is missing.
   */
  function ParseDates(t: Table, m: Mapping, p: DateParsers): (r: Result<seq<Option<Date>>, Error>)
    requires t.WellFormed()
    ensures r.Err? <==> m.date.None? || m.date.value !in t.columns
                        || AllMissing(ChooseDates(p, m.dateFormatHint, t.columns[m.date.value]))
    ensures r.Err? && (m.date.None? || m.date.value !in t.columns) ==> r.error == DateColumnNotFound(m.date)
    ensures r.Err? && m.date.Some? && m.date.value in t.columns ==> r.error == NoParsableDates
    ensures r.Ok? ==> |r.value| == t.height && exists i :: 0 <= i < |r.value| && r.value[i].Some?
    ensures r.Ok? ==> r.value == ChooseDates(p, m.dateFormatHint, t.columns[m.date.value])
  {
    if m.date.None? || m.date.value !in t.columns then
      Err(DateColumnNotFound(m.date))
    else
      var dates := ChooseDates(p, m.dateFormatHint, t.columns[m.date.value]);
      if AllMissing(dates) then Err(NoParsableDates) else Ok(dates)
  }

  /** A sheet without rows never gets past the date stage. */
  lemma EmptySheetFails(t: Table, m: Mapping, p: DateParsers)
    requires t.WellFormed() && t.height == 0
    ensures ParseDates(t, m, p).Err?
  {
  }

  /** With a blank hint the format path is never tried. */
  lemma BlankHintIsFreeForm(p: DateParsers, hint: string, col: seq<Cell>)
    requires forall i :: 0 <= i < |hint| ==> IsSpace(hint[i])
    ensures ChooseDates(p, hint, col) == p.freeForm(col)
  {
  }
}
