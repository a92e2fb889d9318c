/**
 * Values shared by every stage of the KPI pipeline: optional values, results,
 * spreadsheet cells, calendar dates, and the text helpers and orderings the
 * pipeline relies on (Python's `str.strip`, `str.replace`, string ordering).
 */
module Cells {

  /** A value that may be missing (pandas' NaN / NaT). */
  datatype Option<+T> = None | Some(value: T)

  /** The outcome of a stage that can stop the run. */
  datatype Result<+T, +E> = Ok(value: T) | Err(error: E)

  /** One spreadsheet cell as the sheet reader hands it over. */
  datatype Cell = Blank | Num(x: real) | Text(s: string)

  /** A calendar date; the pipeline never inspects it beyond its fields. */
  datatype Date = Date(year: int, month: int, day: int)

  /** The first day of the date's month (`to_period('M').to_timestamp()`). */
  function MonthStart(d: Date): Date {
    Date(d.year, d.month, 1)
  }

  /** Chronological order on dates. */
  predicate DateLt(a: Date, b: Date) {
    a.year < b.year || (a.year == b.year && (a.month < b.month || (a.month == b.month && a.day < b.day)))
  }

  predicate DateLe(a: Date, b: Date) {
    a == b || DateLt(a, b)
  }

  /** The characters Python's `str.isspace` accepts, which `str.strip` removes. */
  predicate IsSpace(c: char) {
    c == ' ' || ('\t' <= c <= '\r') || ('\U{1C}' <= c <= '\U{1F}') || c == '\U{85}' || c == '\U{A0}'
    || c == '\U{1680}' || ('\U{2000}' <= c <= '\U{200A}') || c == '\U{2028}' || c == '\U{2029}'
    || c == '\U{202F}' || c == '\U{205F}' || c == '\U{3000}'
  }

  /** The length of the run of whitespace that starts `s`. */
  function LeadingSpace(s: string): (n: nat)
    ensures n <= |s|
    ensures forall k :: 0 <= k < n ==> IsSpace(s[k])
    ensures n < |s| ==> !IsSpace(s[n])
  {
    if |s| > 0 && IsSpace(s[0]) then 1 + LeadingSpace(s[1..]) else 0
  }

  /** Where the run of whitespace that ends `s` begins. */
  function TrailingSpace(s: string): (n: nat)
    ensures n <= |s|
    ensures forall k :: n <= k < |s| ==> IsSpace(s[k])
    ensures 0 < n ==> !IsSpace(s[n - 1])
  {
    if |s| > 0 && IsSpace(s[|s| - 1]) then TrailingSpace(s[..|s| - 1]) else |s|
  }

  /**
   * Python's `str.strip()`: the result is a contiguous piece of `s`, what was
   * cut off on either side is whitespace, and the result neither starts nor
   * ends with whitespace.
   */
  function Strip(s: string): (r: string)
    ensures exists i, j ::
              && 0 <= i <= j <= |s| && r == s[i..j]
              && (forall k :: 0 <= k < i ==> IsSpace(s[k]))
              && (forall k :: j <= k < |s| ==> IsSpace(s[k]))
    ensures r == [] || (!IsSpace(r[0]) && !IsSpace(r[|r| - 1]))
  {
    var i := LeadingSpace(s);
    var j := i + TrailingSpace(s[i..]);
    assert forall k :: j <= k < |s| ==> s[k] == s[i..][k - i];
    s[i..j]
  }

  /** A text that neither starts nor ends with whitespace is its own stripped form. */
  lemma StripUnspaced(s: string)
    requires s == [] || (!IsSpace(s[0]) && !IsSpace(s[|s| - 1]))
    ensures Strip(s) == s
  {
    assert LeadingSpace(s) == 0;
    assert s[0..] == s;
    assert TrailingSpace(s) == |s|;
  }

  /** Python's `s.replace(c, '')`: every occurrence of `c` removed, all else kept in order. */
  function RemoveChar(s: string, c: char): (r: string)
    ensures c !in r
    ensures c !in s ==> r == s
  {
    if s == [] then []
    else
      assert s == [s[0]] + s[1..];
      (if s[0] == c then [] else [s[0]]) + RemoveChar(s[1..], c)
  }

  lemma {:induction false} RemoveCharAppend(a: string, b: string, c: char)
    ensures RemoveChar(a + b, c) == RemoveChar(a, c) + RemoveChar(b, c)
  {
    if a == [] {
      assert a + b == b;
    } else {
      assert (a + b)[0] == a[0] && (a + b)[1..] == a[1..] + b;
      RemoveCharAppend(a[1..], b, c);
    }
  }

  /** Removing `c` from a text that ends in its only occurrence gives the text before it. */
  lemma RemoveTrailing(s: string, c: char)
    requires c !in s
    ensures RemoveChar(s + [c], c) == s
  {
    RemoveCharAppend(s, [c], c);
    assert RemoveChar([c], c) == [];
  }

  /** Python's ordering of `str` values: code point by code point, a proper prefix first. */
  predicate StrLt(a: string, b: string) {
    if |a| == 0 then |b| > 0
    else if |b| == 0 then false
    else if a[0] != b[0] then a[0] < b[0]
    else StrLt(a[1..], b[1..])
  }

  lemma {:induction false} StrLtIrreflexive(a: string)
    ensures !StrLt(a, a)
  {
    if |a| > 0 {
      StrLtIrreflexive(a[1..]);
    }
  }

  lemma {:induction false} StrLtTransitive(a: string, b: string, c: string)
    requires StrLt(a, b) && StrLt(b, c)
    ensures StrLt(a, c)
  {
    if |a| > 0 && a[0] == b[0] && b[0] == c[0] {
      StrLtTransitive(a[1..], b[1..], c[1..]);
    }
  }

  lemma {:induction false} StrLtTotal(a: string, b: string)
    requires a != b
    ensures StrLt(a, b) || StrLt(b, a)
  {
    if |a| > 0 && |b| > 0 && a[0] == b[0] {
      assert a == [a[0]] + a[1..] && b == [b[0]] + b[1..];
      StrLtTotal(a[1..], b[1..]);
    }
  }
}
