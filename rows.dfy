/**
 * The row filter of `scrape_with_session`: which extracted table rows
 * become assignment tuples, and how the row number is read.
 */
module Rows {
  import opened Records

  /** One row as the page extraction returns it: five trimmed cell texts. */
  datatype RawRow = RawRow(rowNum: string, holder: string, callSign: string, assignNo: string, expiry: string)

  predicate IsAsciiDigit(c: char)
  {
    '0' <= c <= '9'
  }

  predicate AllDigits(s: string)
  {
    forall i :: 0 <= i < |s| ==> IsAsciiDigit(s[i])
  }

  /** `str.isdigit()`: non-empty and made of digits only. */
  predicate IsDigits(s: string)
  {
    |s| > 0 && AllDigits(s)
  }

  /** `int(s)` on a string of decimal digits (leading zeros allowed). */
  function DigitsValue(s: string): nat
    requires AllDigits(s)
    decreases |s|
  {
    if s == [] then 0
    else
      var n := |s| - 1;
      assert AllDigits(s[..n]) by {
        assert forall i :: 0 <= i < n ==> s[..n][i] == s[i];
      }
      DigitsValue(s[..n]) * 10 + (s[n] as int - '0' as int)
  }

  function DigitChar(d: nat): (c: char)
    requires d < 10
    ensures IsAsciiDigit(c) && c as int - '0' as int == d
  {
    ('0' as int + d) as char
  }

  /** The canonical decimal rendering of `n`, used to state what `DigitsValue` inverts. */
  function Decimal(n: nat): (s: string)
    ensures IsDigits(s)
    ensures |s| > 1 ==> s[0] != '0'
    decreases n
  {
    if n < 10 then [DigitChar(n)]
    else
      var prefix := Decimal(n / 10);
      assert (prefix + [DigitChar(n % 10)])[0] == prefix[0];
      prefix + [DigitChar(n % 10)]
  }

  /** Reading back a rendered number gives the number. */
  lemma {:induction false} DecimalRoundTrip(n: nat)
    ensures DigitsValue(Decimal(n)) == n
  {
    if n >= 10 {
      DecimalRoundTrip(n / 10);
      var s := Decimal(n);
      assert s[..|s| - 1] == Decimal(n / 10);
    }
  }

  /** A leading zero does not change the value `int` reads. */
  lemma {:induction false} LeadingZeroIgnored(s: string)
    requires AllDigits(s)
    ensures AllDigits("0" + s) && DigitsValue("0" + s) == DigitsValue(s)
  {
    assert AllDigits("0" + s) by {
      assert forall i :: 1 <= i < |"0" + s| ==> ("0" + s)[i] == s[i - 1];
    }
    if s != [] {
      var n := |s| - 1;
      assert AllDigits(s[..n]) by {
        assert forall i :: 0 <= i < n ==> s[..n][i] == s[i];
      }
      LeadingZeroIgnored(s[..n]);
      assert ("0" + s)[..|"0" + s| - 1] == "0" + s[..n];
    }
  }

  /** The filter condition: `rowNum.isdigit() and callSign and holder`. */
  predicate Accepted(r: RawRow)
  {
    IsDigits(r.rowNum) && r.callSign != [] && r.holder != []
  }

  /** The tuple appended for an accepted row. */
  function Normalize(r: RawRow): (row: Row)
    requires Accepted(r)
    ensures row.rowNumber == DigitsValue(r.rowNum)
    ensures row.holder == r.holder && row.callSign == r.callSign
    ensures row.assignNo == r.assignNo && row.expiry == r.expiry
  {
    Row(DigitsValue(r.rowNum), r.holder, r.callSign, r.assignNo, r.expiry)
  }

  /** `page_assignments`: the accepted rows of the table, normalised, in table order. */
  function PageAssignments(table: seq<RawRow>): (rows: seq<Row>)
    ensures |rows| <= |table|
    ensures forall i :: 0 <= i < |rows| ==>
      rows[i].callSign != [] && rows[i].holder != [] && rows[i].rowNumber >= 0
    decreases |table|
  {
    if table == [] then []
    else
      var n := |table| - 1;
      var prev := PageAssignments(table[..n]);
      if Accepted(table[n]) then prev + [Normalize(table[n])] else prev
  }

  /** The loop that builds `page_assignments`. */
  method ProcessRows(table: seq<RawRow>) returns (pageAssignments: seq<Row>)
    ensures pageAssignments == PageAssignments(table)
  {
    pageAssignments := [];
    for i := 0 to |table|
      invariant pageAssignments == PageAssignments(table[..i])
    {
      assert table[..i + 1][..i] == table[..i];
      var row := table[i];
      if IsDigits(row.rowNum) && row.callSign != [] && row.holder != [] {
        pageAssignments := pageAssignments + [Normalize(row)];
      }
    }
    assert table[..|table|] == table;
  }

  // ---------------------------------------------------------------------
  // What the filter keeps

  /** Filtering a table is filtering its parts: the filter keeps table order. */
  lemma {:induction false} PageAssignmentsConcat(a: seq<RawRow>, b: seq<RawRow>)
    ensures PageAssignments(a + b) == PageAssignments(a) + PageAssignments(b)
    decreases |b|
  {
    if b == [] {
      assert a + b == a;
    } else {
      var n := |b| - 1;
      PageAssignmentsConcat(a, b[..n]);
      assert (a + b)[..|a + b| - 1] == a + b[..n];
    }
  }

  /** A single row is kept, normalised, exactly when it passes the filter. */
  lemma PageAssignmentsSingle(r: RawRow)
    ensures PageAssignments([r]) == if Accepted(r) then [Normalize(r)] else []
  {
    assert [r][..0] == [];
  }

  /** A tuple is produced exactly when some accepted row of the table normalises to it. */
  lemma {:induction false} PageAssignmentsMembers(table: seq<RawRow>, row: Row)
    ensures row in PageAssignments(table) <==> exists i :: 0 <= i < |table| && Accepted(table[i]) && Normalize(table[i]) == row
    decreases |table|
  {
    if table != [] {
      var n := |table| - 1;
      PageAssignmentsMembers(table[..n], row);
      if row in PageAssignments(table[..n]) {
        var i :| 0 <= i < n && Accepted(table[..n][i]) && Normalize(table[..n][i]) == row;
        assert table[i] == table[..n][i];
      }
      if exists i :: 0 <= i < |table| && Accepted(table[i]) && Normalize(table[i]) == row {
        var i :| 0 <= i < |table| && Accepted(table[i]) && Normalize(table[i]) == row;
        if i < n {
          assert table[..n][i] == table[i];
        }
      }
    }
  }

  /** "No valid assignments found": the filter yields nothing exactly when no row passes it. */
  lemma {:induction false} NoValidRows(table: seq<RawRow>)
    ensures PageAssignments(table) == [] <==> forall i :: 0 <= i < |table| ==> !Accepted(table[i])
    decreases |table|
  {
    if table != [] {
      var n := |table| - 1;
      NoValidRows(table[..n]);
      assert forall i :: 0 <= i < n ==> table[..n][i] == table[i];
    }
  }
}
