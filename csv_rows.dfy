/**
 * The comma-separated data files the search-comparison agents write: a
 * header line of column names followed by one line per planning step, each
 * a row of decimal integers as String.format("%d,...") prints them. The
 * plotting script other/bdsm_plot_search_results.py reads such a file back
 * with a ',' delimiter after skipping one header row, and picks its columns
 * by position, so the round trip from numbers to a row and back, and the
 * column order, are what the two sides agree on.
 */
module CsvRows {
  import opened Wrappers

  /** The character of a decimal digit. */
  function DigitChar(d: nat): (c: char)
    requires d < 10
    ensures '0' <= c <= '9'
  {
    ('0' as int + d) as char
  }

  /** The value of a decimal digit character. */
  function DigitValue(c: char): (d: nat)
    requires '0' <= c <= '9'
    ensures d < 10 && DigitChar(d) == c
  {
    c as int - '0' as int
  }

  predicate IsDigit(c: char)
  {
    '0' <= c <= '9'
  }

  predicate AllDigits(s: string)
  {
    forall i :: 0 <= i < |s| ==> IsDigit(s[i])
  }

  /** n / 10, computed by repeated subtraction so that it stays in linear arithmetic. */
  function Quot10(n: nat): (q: nat)
    ensures 10 * q <= n < 10 * q + 10
  {
    if n < 10 then 0 else 1 + Quot10(n - 10)
  }

  /** %d of a non-negative number: its decimal digits, most significant first, with no leading zero. */
  function NatToString(n: nat): (s: string)
    decreases n
  {
    if n < 10 then [DigitChar(n)] else NatToString(Quot10(n)) + [DigitChar(n - 10 * Quot10(n))]
  }

  /** %d of an int: a '-' before the digits of a negative number. */
  function FormatInt(n: int): string
  {
    if n < 0 then "-" + NatToString(-n) else NatToString(n)
  }

  /** The value of a non-empty string of decimal digits. */
  function ParseNat(s: string): nat
    requires |s| > 0 && AllDigits(s)
  {
    if |s| == 1 then DigitValue(s[0])
    else ParseNat(s[..|s| - 1]) * 10 + DigitValue(s[|s| - 1])
  }

  /** A decimal integer with an optional leading '-', or None for anything else. */
  function ParseInt(s: string): Option<int>
  {
    if |s| > 1 && s[0] == '-' && AllDigits(s[1..]) then Some(-(ParseNat(s[1..]) as int))
    else if |s| > 0 && AllDigits(s) then Some(ParseNat(s))
    else None
  }

  /** The digits of a number are non-empty, digits only, and read back as the number. */
  lemma {:induction false} NatRoundTrip(n: nat)
    ensures |NatToString(n)| > 0 && AllDigits(NatToString(n))
    ensures ParseNat(NatToString(n)) == n
  {
    if n >= 10 {
      NatRoundTrip(Quot10(n));
      var s := NatToString(n);
      assert s[..|s| - 1] == NatToString(Quot10(n));
    }
  }

  /** Parsing the %d text of any int gives the int back, and the text holds no comma. */
  lemma FormatIntRoundTrip(n: int)
    ensures ParseInt(FormatInt(n)) == Some(n)
    ensures ',' !in FormatInt(n) && |FormatInt(n)| > 0
  {
    if n < 0 {
      NatRoundTrip(-n);
      var s := FormatInt(n);
      assert s[1..] == NatToString(-n);
    } else {
      NatRoundTrip(n);
      assert FormatInt(n)[0] != '-';
    }
  }

  /** Fields joined with ','. */
  function Join(fields: seq<string>): string
  {
    if |fields| == 0 then ""
    else if |fields| == 1 then fields[0]
    else fields[0] + "," + Join(fields[1..])
  }

  /** A line cut at every ',' (a fixed delimiter, as the script passes it), empty fields kept. */
  function Split(s: string): (r: seq<string>)
    ensures |r| > 0
  {
    if |s| == 0 then [""]
    else
      var r := Split(s[1..]);
      if s[0] == ',' then [""] + r else [[s[0]] + r[0]] + r[1..]
  }

  /** A comma-free text is one field. */
  lemma {:induction false} SplitNoComma(f: string)
    requires ',' !in f
    ensures Split(f) == [f]
  {
    if |f| > 0 {
      assert ',' !in f[1..] by {
        forall k | 0 <= k < |f[1..]|
          ensures f[1..][k] != ','
        {
          assert f[1..][k] == f[k + 1];
        }
      }
      SplitNoComma(f[1..]);
      assert [f[0]] + f[1..] == f;
    }
  }

  /** A comma-free field followed by a comma splits off as the first field. */
  lemma {:induction false} SplitAfterField(f: string, rest: string)
    requires ',' !in f
    ensures Split(f + "," + rest) == [f] + Split(rest)
  {
    var s := f + "," + rest;
    if |f| == 0 {
      assert s == "," + rest && s[1..] == rest;
    } else {
      assert s[1..] == f[1..] + "," + rest;
      assert ',' !in f[1..] by {
        forall k | 0 <= k < |f[1..]|
          ensures f[1..][k] != ','
        {
          assert f[1..][k] == f[k + 1];
        }
      }
      SplitAfterField(f[1..], rest);
      assert [f[0]] + f[1..] == f;
    }
  }

  /** Splitting joined fields that hold no comma gives the fields back. */
  lemma {:induction false} SplitJoin(fields: seq<string>)
    requires |fields| > 0
    requires forall i :: 0 <= i < |fields| ==> ',' !in fields[i]
    ensures Split(Join(fields)) == fields
  {
    if |fields| == 1 {
      SplitNoComma(fields[0]);
    } else {
      var tail := fields[1..];
      assert Join(fields) == fields[0] + "," + Join(tail);
      SplitAfterField(fields[0], Join(tail));
      forall i | 0 <= i < |tail|
        ensures ',' !in tail[i]
      {
        assert tail[i] == fields[i + 1];
      }
      SplitJoin(tail);
      assert fields == [fields[0]] + tail;
    }
  }

  /** The %d text of each number. */
  function FormatAll(ns: seq<int>): (r: seq<string>)
    ensures |r| == |ns| && forall i :: 0 <= i < |ns| ==> r[i] == FormatInt(ns[i])
  {
    if |ns| == 0 then [] else [FormatInt(ns[0])] + FormatAll(ns[1..])
  }

  /** String.format of the numbers with "%d" for each and ',' between them. */
  function FormatRow(ns: seq<int>): string
  {
    Join(FormatAll(ns))
  }

  /** Each field parsed as a decimal integer, or None if one is not. */
  function ParseAll(fields: seq<string>): (r: Option<seq<int>>)
    ensures r.Some? ==> |r.value| == |fields|
  {
    if |fields| == 0 then Some([])
    else
      var head := ParseInt(fields[0]);
      var tail := ParseAll(fields[1..]);
      if head.Some? && tail.Some? then Some([head.value] + tail.value) else None
  }

  /** A row read back: split at ',' and parse every field. */
  function ParseRow(line: string): Option<seq<int>>
  {
    ParseAll(Split(line))
  }

  /** Fields that each parse as a number parse together as those numbers, in order. */
  lemma {:induction false} ParseAllOf(fields: seq<string>, ns: seq<int>)
    requires |fields| == |ns|
    requires forall i :: 0 <= i < |ns| ==> ParseInt(fields[i]) == Some(ns[i])
    ensures ParseAll(fields) == Some(ns)
  {
    if |ns| > 0 {
      forall i | 0 <= i < |ns| - 1
        ensures ParseInt(fields[1..][i]) == Some(ns[1..][i])
      {
        assert fields[1..][i] == fields[i + 1];
      }
      ParseAllOf(fields[1..], ns[1..]);
      assert ns == [ns[0]] + ns[1..];
    }
  }

  /** Parsing the formatted numbers gives them back. */
  lemma ParseFormatAll(ns: seq<int>)
    ensures ParseAll(FormatAll(ns)) == Some(ns)
  {
    forall i | 0 <= i < |ns|
      ensures ParseInt(FormatAll(ns)[i]) == Some(ns[i])
    {
      FormatIntRoundTrip(ns[i]);
    }
    ParseAllOf(FormatAll(ns), ns);
  }

  /** Round trip: a row of numbers reads back as the same numbers in the same order. */
  lemma RowRoundTrip(ns: seq<int>)
    requires |ns| > 0
    ensures ParseRow(FormatRow(ns)) == Some(ns)
  {
    forall i | 0 <= i < |ns|
      ensures ',' !in FormatAll(ns)[i]
    {
      FormatIntRoundTrip(ns[i]);
    }
    SplitJoin(FormatAll(ns));
    ParseFormatAll(ns);
  }

  /**
   * np.loadtxt(data_file, delimiter=',', skiprows=1): the first line is
   * skipped and every other line is read as a row of numbers; a line that
   * does not parse makes the whole load fail.
   */
  function LoadText(lines: seq<string>): (r: Option<seq<seq<int>>>)
    ensures r.Some? ==> |r.value| == if |lines| == 0 then 0 else |lines| - 1
  {
    if |lines| <= 1 then Some([])
    else
      var prefix := LoadText(lines[..|lines| - 1]);
      var row := ParseRow(lines[|lines| - 1]);
      if prefix.Some? && row.Some? then Some(prefix.value + [row.value]) else None
  }

  /** A header line followed by lines that each parse as a row loads as exactly those rows, in order. */
  lemma {:induction false} LoadParsedLines(header: string, body: seq<string>, rows: seq<seq<int>>)
    requires |body| == |rows|
    requires forall i :: 0 <= i < |rows| ==> ParseRow(body[i]) == Some(rows[i])
    ensures LoadText([header] + body) == Some(rows)
  {
    if |rows| > 0 {
      var n := |rows| - 1;
      forall i | 0 <= i < n
        ensures ParseRow(body[..n][i]) == Some(rows[..n][i])
      {
        assert body[..n][i] == body[i];
      }
      LoadParsedLines(header, body[..n], rows[..n]);
      var lines := [header] + body;
      assert lines[..|lines| - 1] == [header] + body[..n];
      assert lines[|lines| - 1] == body[n];
      assert rows == rows[..n] + [rows[n]];
    }
  }

  /** Every formatted line parses back as the row it was formatted from. */
  lemma FormattedLinesParse(rows: seq<seq<int>>)
    requires forall i :: 0 <= i < |rows| ==> |rows[i]| > 0
    ensures forall i :: 0 <= i < |rows| ==> ParseRow(FormatRows(rows)[i]) == Some(rows[i])
  {
    forall i | 0 <= i < |rows|
      ensures ParseRow(FormatRows(rows)[i]) == Some(rows[i])
    {
      RowRoundTrip(rows[i]);
    }
  }

  /** A header line followed by formatted rows loads back as exactly those rows. */
  lemma LoadWrittenRows(header: string, rows: seq<seq<int>>)
    requires forall i :: 0 <= i < |rows| ==> |rows[i]| > 0
    ensures LoadText([header] + FormatRows(rows)) == Some(rows)
  {
    FormattedLinesParse(rows);
    LoadParsedLines(header, FormatRows(rows), rows);
  }

  /** Each row formatted, one line per row. */
  function FormatRows(rows: seq<seq<int>>): (r: seq<string>)
    ensures |r| == |rows| && forall i :: 0 <= i < |rows| ==> r[i] == FormatRow(rows[i])
  {
    if |rows| == 0 then [] else FormatRows(rows[..|rows| - 1]) + [FormatRow(rows[|rows| - 1])]
  }
}
