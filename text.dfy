/**
 * String helpers of the dashboard and the proxy: decimal numbers in labels,
 * `escapeHtml`, CSV cell quoting and joining, and the de-duplicated name list
 * shown under the lowest and highest guesses.
 */
module Text {
  import opened Options

  // ---------------------------------------------------------------------
  // Decimal numbers

  predicate IsDigit(c: char) {
    '0' <= c <= '9'
  }

  predicate AllDigits(s: string) {
    forall i :: 0 <= i < |s| ==> IsDigit(s[i])
  }

  function DigitChar(d: nat): (c: char)
    requires d < 10
    ensures IsDigit(c) && c as int - '0' as int == d
  {
    "0123456789"[d]
  }

  /** The decimal text of a natural number, as JS template strings and PHP `.` print it. */
  function NatToString(n: nat): (r: string)
    ensures |r| >= 1
  {
    if n < 10 then [DigitChar(n)] else NatToString(n / 10) + [DigitChar(n % 10)]
  }

  function IntToString(i: int): string {
    if i < 0 then "-" + NatToString(-i) else NatToString(i)
  }

  /** The value of a string of decimal digits (PHP `intval` on such a string). */
  function DigitsValue(s: string): nat
    requires AllDigits(s)
  {
    if |s| == 0 then 0 else DigitsValue(s[..|s| - 1]) * 10 + (s[|s| - 1] as int - '0' as int)
  }

  /** The printed number is all digits, and reading it back gives the number. */
  lemma {:induction false} DigitsValueOfNatToString(n: nat)
    ensures AllDigits(NatToString(n)) && DigitsValue(NatToString(n)) == n
  {
    if n >= 10 {
      var r := NatToString(n);
      assert r[..|r| - 1] == NatToString(n / 10);
      DigitsValueOfNatToString(n / 10);
    }
  }

  // ---------------------------------------------------------------------
  // escapeHtml

  function EscapeChar(c: char): string {
    match c
    case '&' => "&amp;"
    case '<' => "&lt;"
    case '>' => "&gt;"
    case '"' => "&quot;"
    case '\'' => "&#39;"
    case _ => [c]
  }

  function Escape(s: string): string {
    if |s| == 0 then "" else EscapeChar(s[0]) + Escape(s[1..])
  }

  /** `escapeHtml`: `null`/`undefined` give the empty string. */
  function EscapeHtml(value: Option<string>): (r: string)
    ensures value.None? ==> r == ""
    ensures value.Some? ==> forall i :: 0 <= i < |r| ==> r[i] !in "<>\"'"
  {
    match value
    case None => ""
    case Some(s) => EscapeSafe(s); Escape(s)
  }

  /** The escaped text contains none of `< > " '`. */
  lemma {:induction false} EscapeSafe(s: string)
    ensures forall i :: 0 <= i < |Escape(s)| ==> Escape(s)[i] !in "<>\"'"
  {
    if |s| > 0 {
      EscapeSafe(s[1..]);
      var head, tail := EscapeChar(s[0]), Escape(s[1..]);
      forall i | 0 <= i < |head + tail|
        ensures (head + tail)[i] !in "<>\"'"
      {
        if i >= |head| {
          assert (head + tail)[i] == tail[i - |head|];
        }
      }
    }
  }

  /** The character an escaped text starts with and how many characters encode it. */
  function DecodeOne(s: string): (r: (char, nat))
    requires |s| > 0
    ensures 1 <= r.1 <= |s|
  {
    if s[0] != '&' then (s[0], 1)
    else if |s| >= 5 && s[..5] == "&amp;" then ('&', 5)
    else if |s| >= 4 && s[..4] == "&lt;" then ('<', 4)
    else if |s| >= 4 && s[..4] == "&gt;" then ('>', 4)
    else if |s| >= 6 && s[..6] == "&quot;" then ('"', 6)
    else if |s| >= 5 && s[..5] == "&#39;" then ('\'', 5)
    else ('&', 1)
  }

  /** Decoding the five entities `escapeHtml` writes. */
  function Unescape(s: string): string
    decreases |s|
  {
    if |s| == 0 then "" else var (c, n) := DecodeOne(s); [c] + Unescape(s[n..])
  }

  /** Decoding one escaped character in front of any text. */
  lemma UnescapeStep(c: char, tail: string)
    ensures var t := EscapeChar(c) + tail; |t| > 0 && DecodeOne(t) == (c, |EscapeChar(c)|)
  {
    var t := EscapeChar(c) + tail;
    if c == '&' {
      assert t[..5] == "&amp;";
    } else if c == '<' {
      assert t[1] == 'l' && t[..4] == "&lt;";
    } else if c == '>' {
      assert t[1] == 'g' && t[..4] == "&gt;";
    } else if c == '"' {
      assert t[1] == 'q' && t[..6] == "&quot;";
    } else if c == '\'' {
      assert t[1] == '#' && t[..5] == "&#39;";
    } else {
      assert t[0] == c;
    }
  }

  /** Decoding a text whose first character decodes to `c` over `n` characters. */
  lemma UnescapeCons(t: string, c: char, n: nat)
    requires |t| > 0 && DecodeOne(t) == (c, n)
    ensures Unescape(t) == [c] + Unescape(t[n..])
  {
  }

  /** Exactly `& < > " '` are replaced, and every other character is kept: decoding restores the text. */
  lemma {:induction false} EscapeRoundTrip(s: string)
    ensures Unescape(Escape(s)) == s
  {
    if |s| > 0 {
      var head, tail := EscapeChar(s[0]), Escape(s[1..]);
      var t := head + tail;
      assert Escape(s) == t;
      UnescapeStep(s[0], tail);
      UnescapeCons(t, s[0], |head|);
      assert t[|head|..] == tail;
      EscapeRoundTrip(s[1..]);
      assert s == [s[0]] + s[1..];
    }
  }

  // ---------------------------------------------------------------------
  // CSV

  /** Every `"` doubled. */
  function DoubleQuotes(s: string): (r: string)
    ensures |r| >= |s|
  {
    if |s| == 0 then ""
    else (if s[0] == '"' then "\"\"" else [s[0]]) + DoubleQuotes(s[1..])
  }

  /** A text inside double quotes with its internal quotes doubled. */
  function Quoted(c: string): string {
    "\"" + DoubleQuotes(c) + "\""
  }

  /** A cell as the export writes it; a null cell is empty. */
  function QuoteCell(cell: Option<string>): string {
    Quoted(CellText(cell))
  }

  function JoinCells(cells: seq<Option<string>>): string
    requires |cells| > 0
  {
    if |cells| == 1 then QuoteCell(cells[0]) else QuoteCell(cells[0]) + "," + JoinCells(cells[1..])
  }

  /** `rows.map(cells => ...join(',')).join('\r\n')`. */
  function Csv(rows: seq<seq<Option<string>>>): string
    requires forall i :: 0 <= i < |rows| ==> |rows[i]| > 0
  {
    if |rows| == 0 then ""
    else if |rows| == 1 then JoinCells(rows[0])
    else JoinCells(rows[0]) + "\r\n" + Csv(rows[1..])
  }

  /** Reads a quoted cell body up to its closing quote; returns the text and what follows. */
  function ReadQuoted(s: string): (r: Option<(string, string)>)
    ensures r.Some? ==> |r.value.1| < |s|
    decreases |s|
  {
    if |s| == 0 then None
    else if s[0] == '"' then
      if |s| >= 2 && s[1] == '"' then
        match ReadQuoted(s[2..])
        case None => None
        case Some(p) => Some(("\"" + p.0, p.1))
      else Some(("", s[1..]))
    else
      match ReadQuoted(s[1..])
      case None => None
      case Some(p) => Some(([s[0]] + p.0, p.1))
  }

  /** A reader of the files this export writes: quoted cells, `,` between cells, CRLF between rows. */
  function ParseCsv(s: string): (r: Option<seq<seq<string>>>)
    ensures r.Some? ==> |r.value| > 0 && |r.value[0]| > 0
    decreases |s|, 1
  {
    if |s| == 0 || s[0] != '"' then None
    else
      match ReadQuoted(s[1..])
      case None => None
      case Some(p) => ParseAfterCell(p.0, p.1)
  }

  /** What follows a cell: the end of the text, `,` and the rest of the row, or CRLF and the next rows. */
  function ParseAfterCell(cell: string, rest: string): (r: Option<seq<seq<string>>>)
    ensures r.Some? ==> |r.value| > 0 && |r.value[0]| > 0
    decreases |rest|, 0
  {
    if rest == "" then Some([[cell]])
    else if rest[0] == ',' then
      match ParseCsv(rest[1..])
      case None => None
      case Some(rows) => Some([[cell] + rows[0]] + rows[1..])
    else if |rest| >= 2 && rest[0] == '\r' && rest[1] == '\n' then
      match ParseCsv(rest[2..])
      case None => None
      case Some(rows) => Some([[cell]] + rows)
    else None
  }

  lemma {:induction false} ReadQuotedOfDoubled(c: string, rest: string)
    requires rest == "" || rest[0] != '"'
    ensures ReadQuoted(DoubleQuotes(c) + "\"" + rest) == Some((c, rest))
  {
    if |c| > 0 {
      ReadQuotedOfDoubled(c[1..], rest);
      var tail := DoubleQuotes(c[1..]) + "\"" + rest;
      if c[0] == '"' {
        assert DoubleQuotes(c) + "\"" + rest == "\"\"" + tail;
        assert ("\"\"" + tail)[2..] == tail;
      } else {
        assert DoubleQuotes(c) + "\"" + rest == [c[0]] + tail;
        assert ([c[0]] + tail)[1..] == tail;
      }
      assert c == [c[0]] + c[1..];
    } else {
      assert DoubleQuotes(c) + "\"" + rest == "\"" + rest;
    }
  }

  function CellText(cell: Option<string>): string {
    if cell.Some? then cell.value else ""
  }

  function CellTexts(cells: seq<Option<string>>): seq<string> {
    if |cells| == 0 then [] else [CellText(cells[0])] + CellTexts(cells[1..])
  }

  /** A quoted cell is read back, and parsing goes on with what follows its closing quote. */
  lemma ParseQuoted(c: string, rest: string)
    requires rest == "" || rest[0] != '"'
    ensures ParseCsv(Quoted(c) + rest) == ParseAfterCell(c, rest)
  {
    ReadQuotedOfDoubled(c, rest);
    var t := Quoted(c) + rest;
    assert t[1..] == DoubleQuotes(c) + "\"" + rest;
  }

  /** The cells of one row, followed by the rows `rest` holds after its CRLF. */
  lemma {:induction false} ParseJoinCells(cells: seq<Option<string>>, rest: string, later: seq<seq<string>>)
    requires |cells| > 0
    requires rest == "" ==> later == []
    requires rest != "" ==> |rest| >= 2 && rest[0] == '\r' && rest[1] == '\n' && ParseCsv(rest[2..]) == Some(later)
    ensures ParseCsv(JoinCells(cells) + rest) == Some([CellTexts(cells)] + later)
    decreases |cells|
  {
    var c := CellText(cells[0]);
    assert CellTexts(cells) == [c] + CellTexts(cells[1..]);
    if |cells| == 1 {
      assert JoinCells(cells) == Quoted(c) && CellTexts(cells) == [c];
      ParseQuoted(c, rest);
      if rest == "" {
        assert [[c]] + later == [[c]];
      } else {
        assert rest[0] != ',';
      }
    } else {
      var tail := JoinCells(cells[1..]) + rest;
      ParseJoinCells(cells[1..], rest, later);
      ParseCellThenRow(c, tail, [CellTexts(cells[1..])] + later);
      Regroup(Quoted(c), ",", JoinCells(cells[1..]), rest);
    }
  }

  /** A quoted cell, `,` and a text that parses: the cell joins the first row. */
  lemma ParseCellThenRow(c: string, tail: string, rows: seq<seq<string>>)
    requires ParseCsv(tail) == Some(rows)
    ensures ParseCsv(Quoted(c) + ("," + tail)) == Some([[c] + rows[0]] + rows[1..])
  {
    var more := "," + tail;
    assert more[1..] == tail;
    ParseQuoted(c, more);
  }

  lemma Regroup(a: string, b: string, d: string, e: string)
    ensures a + b + d + e == a + (b + (d + e))
  {
  }

  /** The text of every cell of every row, null cells as empty text. */
  function CellTextRows(rows: seq<seq<Option<string>>>): (r: seq<seq<string>>)
    ensures |r| == |rows|
  {
    if |rows| == 0 then [] else [CellTexts(rows[0])] + CellTextRows(rows[1..])
  }

  /** Row `i` of the texts is the texts of row `i`. */
  lemma {:induction false} CellTextRowsAt(rows: seq<seq<Option<string>>>, i: nat)
    requires i < |rows|
    ensures CellTextRows(rows)[i] == CellTexts(rows[i])
  {
    if i > 0 {
      CellTextRowsAt(rows[1..], i - 1);
    }
  }

  lemma AppendNothing(a: string)
    ensures a + "" == a
  {
  }

  /** What the export writes, read back, gives the cells it was given (null cells as empty text). */
  lemma {:induction false} CsvRoundTrip(rows: seq<seq<Option<string>>>)
    requires |rows| > 0 && forall i :: 0 <= i < |rows| ==> |rows[i]| > 0
    ensures ParseCsv(Csv(rows)) == Some(CellTextRows(rows))
  {
    assert CellTextRows(rows) == [CellTexts(rows[0])] + CellTextRows(rows[1..]);
    if |rows| == 1 {
      assert CellTextRows(rows[1..]) == [];
      ParseJoinCells(rows[0], "", []);
      AppendNothing(JoinCells(rows[0]));
    } else {
      var rest := "\r\n" + Csv(rows[1..]);
      assert rest[2..] == Csv(rows[1..]);
      CsvRoundTrip(rows[1..]);
      ParseJoinCells(rows[0], rest, CellTextRows(rows[1..]));
      Regroup(JoinCells(rows[0]), "\r\n", Csv(rows[1..]), "");
      AppendNothing(Csv(rows[1..]));
      AppendNothing(JoinCells(rows[0]) + "\r\n" + Csv(rows[1..]));
    }
  }

  // ---------------------------------------------------------------------
  // formatGuessNameList

  /** The white space JS `trim` removes (the ASCII ones plus no-break space and BOM). */
  predicate IsSpace(c: char) {
    c == ' ' || c == '\t' || c == '\n' || c == '\r' || c == '\U{000B}' || c == '\U{000C}' ||
    c == '\U{00A0}' || c == '\U{FEFF}'
  }

  function TrimStart(s: string): (r: string)
    ensures |r| <= |s|
    ensures |r| > 0 ==> !IsSpace(r[0])
  {
    if |s| > 0 && IsSpace(s[0]) then TrimStart(s[1..]) else s
  }

  function TrimEnd(s: string): (r: string)
    ensures |r| <= |s|
    ensures |r| > 0 ==> !IsSpace(r[|r| - 1])
  {
    if |s| > 0 && IsSpace(s[|s| - 1]) then TrimEnd(s[..|s| - 1]) else s
  }

  function Trim(s: string): string {
    TrimEnd(TrimStart(s))
  }

  /** `entry && entry.name ? entry.name.trim() : 'Unknown'` (None: no entry, or no or empty name). */
  function DisplayName(name: Option<string>): string {
    if name.Some? && name.value != "" then Trim(name.value) else "Unknown"
  }

  /** `.filter((name, idx, arr) => name && arr.indexOf(name) === idx)`: non-empty names, first occurrence kept. */
  function FirstOccurrences(names: seq<string>, seen: set<string>): (r: seq<string>)
    ensures forall i :: 0 <= i < |r| ==> r[i] != "" && r[i] !in seen && r[i] in names
    ensures forall i, j :: 0 <= i < j < |r| ==> r[i] != r[j]
    ensures forall n :: n in names && n != "" && n !in seen ==> n in r
  {
    if |names| == 0 then []
    else if names[0] == "" || names[0] in seen then FirstOccurrences(names[1..], seen)
    else [names[0]] + FirstOccurrences(names[1..], seen + {names[0]})
  }

  /** `arr.indexOf(x)` for an `x` that occurs: the index of its first occurrence. */
  function IndexOf(s: seq<string>, x: string): (i: nat)
    requires x in s
    ensures i < |s| && s[i] == x && forall j :: 0 <= j < i ==> s[j] != x
  {
    if s[0] == x then 0 else 1 + IndexOf(s[1..], x)
  }

  /**
   * `.filter((name, idx, arr) => name && arr.indexOf(name) === idx)` read
   * literally, over the indices from `lo` on, in order.
   */
  function IndexOfFilter(arr: seq<string>, lo: nat): seq<string>
    requires lo <= |arr|
    decreases |arr| - lo
  {
    if lo == |arr| then []
    else (if arr[lo] != "" && IndexOf(arr, arr[lo]) == lo then [arr[lo]] else []) + IndexOfFilter(arr, lo + 1)
  }

  /**
   * Skipping the names already seen is the `indexOf` filter: the names are
   * kept in the order of their first occurrence.
   */
  lemma {:induction false} FirstOccurrencesIsIndexOfFilter(arr: seq<string>, lo: nat)
    requires lo <= |arr|
    ensures FirstOccurrences(arr[lo..], NamesIn(arr[..lo])) == IndexOfFilter(arr, lo)
    decreases |arr| - lo
  {
    if lo < |arr| {
      var seen := NamesIn(arr[..lo]);
      var x := arr[lo];
      assert arr[lo..][1..] == arr[lo + 1..];
      assert arr[..lo + 1] == arr[..lo] + [x];
      assert x != "" ==> (x in seen <==> IndexOf(arr, x) != lo) by {
        if x != "" && x in seen {
          var k :| 0 <= k < lo && arr[..lo][k] == x;
          assert arr[k] == x;
        }
      }
      FirstOccurrencesIsIndexOfFilter(arr, lo + 1);
      if x != "" {
        assert NamesIn(arr[..lo + 1]) == seen + {x};
        if x in seen {
          assert seen + {x} == seen;
        }
      } else {
        assert NamesIn(arr[..lo + 1]) == seen;
      }
    }
  }

  /** The non-empty names of a list. */
  ghost function NamesIn(p: seq<string>): set<string> {
    set x | x in p && x != ""
  }

  /** The names `formatGuessNameList` keeps are the `indexOf` filter of all display names. */
  lemma KeptNamesInOrder(names: seq<string>)
    ensures FirstOccurrences(names, {}) == IndexOfFilter(names, 0)
  {
    assert names[0..] == names;
    assert names[..0] == [];
    assert NamesIn(names[..0]) == {};
    FirstOccurrencesIsIndexOfFilter(names, 0);
  }

  /** A list without repeats has as many elements as its set. */
  lemma {:induction false} DistinctCard(r: seq<string>)
    requires forall i, j :: 0 <= i < j < |r| ==> r[i] != r[j]
    ensures |set x | x in r| == |r|
  {
    if |r| > 0 {
      DistinctCard(r[1..]);
      assert (set x | x in r) == (set x | x in r[1..]) + {r[0]};
      assert r[0] !in r[1..];
    }
  }

  /** The display names of the entries, in order. */
  function DisplayNames(entries: seq<Option<string>>): (names: seq<string>)
    ensures |names| == |entries| && forall i :: 0 <= i < |entries| ==> names[i] == DisplayName(entries[i])
  {
    seq(|entries|, i requires 0 <= i < |entries| => DisplayName(entries[i]))
  }

  /** There are as many kept names as distinct non-empty names. */
  lemma NameCount(names: seq<string>)
    ensures |FirstOccurrences(names, {})| == |NamesIn(names)|
  {
    var r := FirstOccurrences(names, {});
    DistinctCard(r);
    assert (set x | x in r) == NamesIn(names);
  }

  function JoinComma(names: seq<string>): string {
    if |names| == 0 then "" else if |names| == 1 then names[0] else names[0] + ", " + JoinComma(names[1..])
  }

  /**
   * `formatGuessNameList`: an em dash when every display name is blank;
   * otherwise the first three distinct names in the order they first occur
   * and, when there are more, `+k more` with `k` the number of the other
   * distinct names.
   */
  function FormatGuessNameList(entries: seq<Option<string>>): (r: string)
    ensures (forall i :: 0 <= i < |entries| ==> DisplayName(entries[i]) == "") ==> r == "—"
    ensures var names, n := IndexOfFilter(DisplayNames(entries), 0), |NamesIn(DisplayNames(entries))|;
      && |names| == n
      && (0 < n <= 3 ==> r == JoinComma(names))
      && (n > 3 ==> r == JoinComma(names[..3]) + " +" + NatToString(n - 3) + " more")
  {
    var names := FirstOccurrences(DisplayNames(entries), {});
    KeptNamesInOrder(DisplayNames(entries));
    NameCount(DisplayNames(entries));
    if |names| == 0 then "—"
    else if |names| > 3 then JoinComma(names[..3]) + " +" + NatToString(|names| - 3) + " more"
    else JoinComma(names)
  }

  // ---------------------------------------------------------------------
  // normalizeBinSize

  const BinSteps: seq<real> := [0.5, 1.0, 2.0, 5.0, 10.0, 20.0, 25.0, 50.0]

  function FirstStepAtLeast(steps: seq<real>, raw: real): (r: Option<real>)
    ensures r.Some? ==> r.value in steps && raw <= r.value
    ensures r.Some? ==> forall i :: 0 <= i < |steps| && steps[i] != r.value && raw <= steps[i] ==>
      exists j :: 0 <= j < i && steps[j] == r.value
    ensures r.None? ==> forall i :: 0 <= i < |steps| ==> steps[i] < raw
  {
    if |steps| == 0 then None
    else if raw <= steps[0] then Some(steps[0])
    else
      var r := FirstStepAtLeast(steps[1..], raw);
      if r.Some? then
        assert forall i :: 1 <= i < |steps| ==> steps[i] == steps[1..][i - 1];
        r
      else None
  }

  /**
   * `normalizeBinSize`: the smallest of the fixed step sizes that is at
   * least `span / max(desiredBins, 1)`, or the largest step when none is.
   */
  function NormalizeBinSize(span: real, desiredBins: real): (r: real)
    ensures r in BinSteps
    ensures var raw := span / (if desiredBins > 1.0 then desiredBins else 1.0);
      && (raw <= r || r == 50.0)
      && (forall step :: step in BinSteps && raw <= step ==> r <= step)
  {
    var raw := span / (if desiredBins > 1.0 then desiredBins else 1.0);
    var r := FirstStepAtLeast(BinSteps, raw);
    if r.Some? then r.value else BinSteps[|BinSteps| - 1]
  }
}
