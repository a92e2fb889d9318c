/**
 * `parse_percent` (app.py): coerce a column of cells to numbers and put the
 * whole column on the 0-100 scale. A column that holds any text is pandas
 * object dtype; on it `.str.replace('%', '').str.strip()` runs first, and
 * those string methods turn every non-text cell into NaN. The median of the
 * present values then decides, once for the whole column, whether every value
 * is multiplied by 100.
 */
module Percent {
  import opened Cells
  import opened Numeric
  import opened Stats

  /** A median at or below this marks a column written as fractions. */
  const FractionCutoff: real := 1.05

  /** pandas stores a column as object dtype exactly when some cell holds text. */
  predicate IsTextColumn(col: seq<Cell>) {
    exists i :: 0 <= i < |col| && col[i].Text?
  }

  /** The coercion of one cell, given whether its column is a text column. */
  function CoerceCell(textColumn: bool, c: Cell): Option<real> {
    if !textColumn then ToNumeric(c)
    else match c
      case Text(s) => ParseNumber(Strip(RemoveChar(s, '%')))
      case _ => None
  }

  /** Every cell coerced with the same column-wide dtype. */
  function CoerceAll(textColumn: bool, col: seq<Cell>): (r: seq<Option<real>>)
    ensures |r| == |col|
    ensures forall i :: 0 <= i < |col| ==> r[i] == CoerceCell(textColumn, col[i])
  {
    seq(|col|, i requires 0 <= i < |col| => CoerceCell(textColumn, col[i]))
  }

  /** Lines 14-16 of `parse_percent`: the column after stripping and `to_numeric`. */
  function Coerce(col: seq<Cell>): seq<Option<real>> {
    CoerceAll(IsTextColumn(col), col)
  }

  /** The factor `parse_percent` applies to every present value of the column. */
  function ScaleFactor(col: seq<Cell>): (f: real)
    ensures f == 1.0 || f == 100.0
  {
    var p := Present(Coerce(col));
    if |p| > 0 && Median(p) <= FractionCutoff then 100.0 else 1.0
  }

  /**
   * `parse_percent`: the coerced column, times 100 when the median of its
   * present values is at most 1.05. The result keeps the column's length and
   * the position of every missing value, and every present value is scaled
   * by the one column-wide factor.
   */
  function ParsePercent(col: seq<Cell>): (r: seq<Option<real>>)
    ensures |r| == |col|
    ensures forall i :: 0 <= i < |col| ==> (r[i].Some? <==> Coerce(col)[i].Some?)
    ensures forall i :: 0 <= i < |col| && r[i].Some? ==> r[i].value == ScaleFactor(col) * Coerce(col)[i].value
  {
    var v := Coerce(col);
    var p := Present(v);
    if |p| == 0 then
      v
    else if Median(p) <= FractionCutoff then
      seq(|v|, i requires 0 <= i < |v| => if v[i].Some? then Some(v[i].value * 100.0) else None)
    else
      v
  }

  /** One present value times a factor; a missing value stays missing. */
  function ScaleBy(x: Option<real>, f: real): Option<real> {
    if x.Some? then Some(f * x.value) else None
  }

  /** Cell `i` of the result depends only on cell `i` of the coerced column and the column's factor. */
  lemma ParsePercentAt(col: seq<Cell>, i: nat)
    requires i < |col|
    ensures ParsePercent(col)[i] == ScaleBy(Coerce(col)[i], ScaleFactor(col))
  {
  }

  /** A column none of whose cells coerces comes back as it was: all missing. */
  lemma NothingPresentUnchanged(col: seq<Cell>)
    requires forall i :: 0 <= i < |col| ==> Coerce(col)[i].None?
    ensures ParsePercent(col) == Coerce(col)
    ensures forall i :: 0 <= i < |col| ==> ParsePercent(col)[i].None?
  {
  }

  /** A column whose present values all lie at or below 1.05 is multiplied by 100. */
  lemma FractionColumnScaled(col: seq<Cell>)
    requires exists i :: 0 <= i < |col| && Coerce(col)[i].Some?
    requires forall i :: 0 <= i < |col| && Coerce(col)[i].Some? ==> Coerce(col)[i].value <= FractionCutoff
    ensures forall i :: 0 <= i < |col| && Coerce(col)[i].Some? ==>
              ParsePercent(col)[i] == Some(100.0 * Coerce(col)[i].value)
  {
    FractionFactor(col);
    forall i | 0 <= i < |col| && Coerce(col)[i].Some? ensures ParsePercent(col)[i] == Some(100.0 * Coerce(col)[i].value) {
      ParsePercentAt(col, i);
    }
  }

  /** A column whose present values are all at most 1.05 has factor 100. */
  lemma FractionFactor(col: seq<Cell>)
    requires exists i :: 0 <= i < |col| && Coerce(col)[i].Some?
    requires forall i :: 0 <= i < |col| && Coerce(col)[i].Some? ==> Coerce(col)[i].value <= FractionCutoff
    ensures ScaleFactor(col) == 100.0
  {
    var v := Coerce(col);
    var p := Present(v);
    forall k | 0 <= k < |p| ensures p[k] <= FractionCutoff {
      PresentFrom(v, k);
    }
    MedianAtMost(p, FractionCutoff);
  }

  /** A column whose present values all exceed 1.05 is already on the percentage scale and is left alone. */
  lemma PercentColumnUnchanged(col: seq<Cell>)
    requires forall i :: 0 <= i < |col| && Coerce(col)[i].Some? ==> Coerce(col)[i].value > FractionCutoff
    ensures ParsePercent(col) == Coerce(col)
  {
    var v := Coerce(col);
    var p := Present(v);
    if |p| > 0 {
      forall k | 0 <= k < |p| ensures p[k] > FractionCutoff {
        PresentFrom(v, k);
      }
      MedianAbove(p, FractionCutoff);
    }
  }

  /** In a column that holds text, a numeric cell is lost: the string methods turn it into NaN. */
  lemma NumberInTextColumnMissing(col: seq<Cell>, i: nat)
    requires i < |col| && col[i].Num?
    requires IsTextColumn(col)
    ensures ParsePercent(col)[i].None?
  {
  }

  /** A `%` anywhere in a text cell makes no difference to what the cell coerces to. */
  lemma {:induction false} PercentSignIgnored(a: string, b: string)
    ensures CoerceCell(true, Text(a + "%" + b)) == CoerceCell(true, Text(a + b))
  {
    assert RemoveChar(a + "%" + b, '%') == RemoveChar(a + b, '%') by {
      RemoveCharAppend(a + "%", b, '%');
      RemoveCharAppend(a, "%", '%');
      RemoveCharAppend(a, b, '%');
      assert RemoveChar("%", '%') == [];
      assert RemoveChar(a, '%') + [] == RemoveChar(a, '%');
    }
  }

  /** Rearranging the cells of a column rearranges its present coerced values and nothing more. */
  lemma CoercedValuesIgnoreOrder(textColumn: bool, a: seq<Cell>, b: seq<Cell>)
    requires multiset(a) == multiset(b)
    ensures multiset(Present(CoerceAll(textColumn, a))) == multiset(Present(CoerceAll(textColumn, b)))
  {
    var g := (c: Cell) => CoerceCell(textColumn, c);
    assert CoerceAll(textColumn, a) == MapSeq(g, a);
    assert CoerceAll(textColumn, b) == MapSeq(g, b);
    PresentIgnoresOrder(g, a, b);
  }

  /** A whole number written with a trailing `%` reads as that number. */
  lemma WholePercentText(n: nat)
    ensures CoerceCell(true, Text(ShowNat(n) + "%")) == Some(n as real)
  {
    var s := ShowNat(n);
    ShowNatPlain(n);
    RemoveTrailing(s, '%');
    StripUnspaced(s);
    ParseShowNat(n);
  }

  lemma TextColumnIgnoresOrder(a: seq<Cell>, b: seq<Cell>)
    requires multiset(a) == multiset(b)
    ensures IsTextColumn(a) == IsTextColumn(b)
  {
    if IsTextColumn(a) {
      var i :| 0 <= i < |a| && a[i].Text?;
      assert a[i] in multiset(b);
    }
    if IsTextColumn(b) {
      var i :| 0 <= i < |b| && b[i].Text?;
      assert b[i] in multiset(a);
    }
  }

  /** The scale decision does not depend on the order of the rows. */
  lemma ScaleFactorIgnoresOrder(a: seq<Cell>, b: seq<Cell>)
    requires multiset(a) == multiset(b)
    ensures IsTextColumn(a) == IsTextColumn(b)
    ensures ScaleFactor(a) == ScaleFactor(b)
  {
    TextColumnIgnoresOrder(a, b);
    CoercedValuesIgnoreOrder(IsTextColumn(a), a, b);
    var pa, pb := Present(Coerce(a)), Present(Coerce(b));
    assert |pa| == |pb| by { assert |multiset(pa)| == |multiset(pb)|; }
    if |pa| > 0 {
      MedianIgnoresOrder(pa, pb);
    }
  }

  /**
   * The scale decision is made for the column as a whole: rearranging the
   * rows gives every cell the same result wherever it ends up.
   */
  lemma ParsePercentIgnoresOrder(a: seq<Cell>, b: seq<Cell>, i: nat, j: nat)
    requires multiset(a) == multiset(b)
    requires i < |a| && j < |b| && a[i] == b[j]
    ensures ParsePercent(a)[i] == ParsePercent(b)[j]
  {
    ScaleFactorIgnoresOrder(a, b);
    assert Coerce(a)[i] == Coerce(b)[j];
    ParsePercentAt(a, i);
    ParsePercentAt(b, j);
  }

  /** `"95%"` in a text column coerces to 95. */
  lemma NinetyFivePercent()
    ensures CoerceCell(true, Text("95%")) == Some(95.0)
  {
    assert ShowNat(95) == "95" by { assert DigitChar(9) == '9' && DigitChar(5) == '5'; }
    WholePercentText(95);
    assert ShowNat(95) + "%" == "95%";
  }

  /** `"80%"` in a text column coerces to 80. */
  lemma EightyPercent()
    ensures CoerceCell(true, Text("80%")) == Some(80.0)
  {
    assert ShowNat(80) == "80" by { assert DigitChar(8) == '8' && DigitChar(0) == '0'; }
    WholePercentText(80);
    assert ShowNat(80) + "%" == "80%";
  }

  /** `["95%", "80%"]` is a text column whose cells coerce to 95 and 80. */
  lemma PercentTextCoerced(col: seq<Cell>)
    requires |col| == 2 && col[0] == Text("95%") && col[1] == Text("80%")
    ensures Coerce(col)[0] == Some(95.0) && Coerce(col)[1] == Some(80.0)
  {
    assert IsTextColumn(col) by { assert col[0].Text?; }
    NinetyFivePercent();
    EightyPercent();
  }

  /** A column coercing to 95 and 80 has a median above 1.05 and is returned unscaled. */
  lemma PercentPairUnscaled(col: seq<Cell>)
    requires |col| == 2 && Coerce(col)[0] == Some(95.0) && Coerce(col)[1] == Some(80.0)
    ensures ParsePercent(col) == [Some(95.0), Some(80.0)]
  {
    PercentColumnUnchanged(col);
  }

  /** `["95%", "80%"]` gives `[95, 80]`. */
  lemma PercentTextExample(col: seq<Cell>)
    requires |col| == 2 && col[0] == Text("95%") && col[1] == Text("80%")
    ensures ParsePercent(col) == [Some(95.0), Some(80.0)]
  {
    PercentTextCoerced(col);
    PercentPairUnscaled(col);
  }

  /** A numeric column `[0.1, 0.2, 0.3]` coerces to its own values. */
  lemma FractionCoerced(col: seq<Cell>)
    requires |col| == 3 && col[0] == Num(0.1) && col[1] == Num(0.2) && col[2] == Num(0.3)
    ensures Coerce(col)[0] == Some(0.1) && Coerce(col)[1] == Some(0.2) && Coerce(col)[2] == Some(0.3)
  {
    assert !IsTextColumn(col);
  }

  /** A column coercing to 0.1, 0.2 and 0.3 is multiplied by 100. */
  lemma FractionTripleScaled(col: seq<Cell>)
    requires |col| == 3 && Coerce(col)[0] == Some(0.1) && Coerce(col)[1] == Some(0.2) && Coerce(col)[2] == Some(0.3)
    ensures ParsePercent(col) == [Some(10.0), Some(20.0), Some(30.0)]
  {
    assert Coerce(col)[0].Some?;
    FractionColumnScaled(col);
    var r := ParsePercent(col);
    assert r[0] == Some(10.0) && r[1] == Some(20.0) && r[2] == Some(30.0);
  }

  /** `[0.1, 0.2, 0.3]` has median 0.2, so the column is multiplied by 100. */
  lemma FractionExample(col: seq<Cell>)
    requires |col| == 3 && col[0] == Num(0.1) && col[1] == Num(0.2) && col[2] == Num(0.3)
    ensures ParsePercent(col) == [Some(10.0), Some(20.0), Some(30.0)]
  {
    FractionCoerced(col);
    FractionTripleScaled(col);
  }

  /** `[10, 20, 30]` has median 20, so the column is already on the percentage scale. */
  lemma PercentageExample()
    ensures ParsePercent([Num(10.0), Num(20.0), Num(30.0)]) == [Some(10.0), Some(20.0), Some(30.0)]
  {
    var col := [Num(10.0), Num(20.0), Num(30.0)];
    assert !IsTextColumn(col);
    assert Coerce(col) == [Some(10.0), Some(20.0), Some(30.0)];
    PercentColumnUnchanged(col);
  }
}
