/** `generateCSV`: rows of named values to comma-separated text, one line per
    row under a header line, with lines joined by LF. A value holding a comma,
    LF or double quote is quoted with its quotes doubled; header names are
    written as they are. Alongside it, a reader for the same dialect, so that
    what the writer promises can be stated as a round trip. */
module Csv {
  import opened Wrappers

  /** A row object: its own properties in `Object.keys` order (integer-like
      names first, ascending, then the others in insertion order), each name
      once, with its value already turned into text, `None` for null or
      undefined. */
  type Record = row: seq<(string, Option<string>)> | forall i, j :: 0 <= i < j < |row| ==> row[i].0 != row[j].0

  /** `Object.keys(row)`. */
  function Keys(row: Record): (ks: seq<string>)
    ensures |ks| == |row| && forall i :: 0 <= i < |row| ==> ks[i] == row[i].0
  {
    seq(|row|, i requires 0 <= i < |row| => row[i].0)
  }

  /** `row[key]`: `None` when the key is missing or the value is null. */
  function Get(row: Record, key: string): (v: Option<string>)
    ensures v.Some? ==> (key, v) in row
    ensures (forall i :: 0 <= i < |row| ==> row[i].0 != key) ==> v.None?
  {
    if row == [] then None
    else if row[0].0 == key then row[0].1
    else
      var v := Get(row[1..], key);
      assert v.Some? ==> (key, v) in row[1..];
      v
  }

  predicate NeedsQuoting(v: string)
  {
    ',' in v || '\n' in v || '"' in v
  }

  /** `v.replace(/"/g, '""')`. */
  function DoubleQuotes(v: string): (r: string)
    ensures '\n' in r <==> '\n' in v
  {
    if v == [] then []
    else if v[0] == '"' then "\"\"" + DoubleQuotes(v[1..])
    else [v[0]] + DoubleQuotes(v[1..])
  }

  /** One field as the writer emits it. */
  function Escape(v: string): (r: string)
    ensures NeedsQuoting(v) ==> |r| >= 2 && r[0] == '"' && r[|r| - 1] == '"'
    ensures !NeedsQuoting(v) ==> r == v
    ensures '\n' in r <==> '\n' in v
  {
    if NeedsQuoting(v) then "\"" + DoubleQuotes(v) + "\"" else v
  }

  /** Collapses each `""` to `"`: the inverse of `DoubleQuotes`. */
  function Undouble(s: string): string
  {
    if s == [] then []
    else if |s| >= 2 && s[0] == '"' && s[1] == '"' then "\"" + Undouble(s[2..])
    else [s[0]] + Undouble(s[1..])
  }

  /** Strips the quotes a quoted field carries and collapses its doubled quotes. */
  function Unescape(s: string): string
  {
    if |s| >= 2 && s[0] == '"' && s[|s| - 1] == '"' then Undouble(s[1..|s| - 1]) else s
  }

  lemma {:induction false} UndoubleDoubleQuotes(v: string)
    ensures Undouble(DoubleQuotes(v)) == v
  {
    if v != [] {
      UndoubleDoubleQuotes(v[1..]);
      if v[0] == '"' {
        assert ("\"\"" + DoubleQuotes(v[1..]))[2..] == DoubleQuotes(v[1..]);
      } else {
        var d := [v[0]] + DoubleQuotes(v[1..]);
        assert d[1..] == DoubleQuotes(v[1..]);
      }
    }
  }

  /** Unquoting a written field gives back the value. */
  lemma UnescapeEscape(v: string)
    ensures Unescape(Escape(v)) == v
  {
    if NeedsQuoting(v) {
      var e := Escape(v);
      assert e[1..|e| - 1] == DoubleQuotes(v);
      UndoubleDoubleQuotes(v);
    } else {
      assert |v| >= 2 ==> v[0] in v;
    }
  }

  /** `parts.join(sep)`. */
  function Join(parts: seq<string>, sep: string): string
  {
    if parts == [] then ""
    else if |parts| == 1 then parts[0]
    else parts[0] + sep + Join(parts[1..], sep)
  }

  /** The text of one row's cell: empty for a null or missing value. */
  function Cell(row: Record, key: string): (r: string)
    ensures Get(row, key).None? ==> r == ""
    ensures Get(row, key).Some? ==> Unescape(r) == Get(row, key).value
    ensures '\n' in r <==> Get(row, key).Some? && '\n' in Get(row, key).value
  {
    match Get(row, key)
    case None => ""
    case Some(v) =>
      UnescapeEscape(v);
      Escape(v)
  }

  /** The values a row holds under the given keys, "" for null or missing. */
  function Values(row: Record, keys: seq<string>): (vs: seq<string>)
    ensures |vs| == |keys|
    ensures forall i :: 0 <= i < |keys| ==> vs[i] == match Get(row, keys[i]) case None => "" case Some(v) => v
  {
    seq(|keys|, i requires 0 <= i < |keys| => match Get(row, keys[i]) case None => "" case Some(v) => v)
  }

  function RowLine(row: Record, keys: seq<string>): string
  {
    Join(seq(|keys|, i requires 0 <= i < |keys| => Cell(row, keys[i])), ",")
  }

  /** The columns: the given headers, even an empty list, or else the keys of
      the first row. */
  function Columns(data: seq<Record>, headers: Option<seq<string>>): seq<string>
    requires data != []
  {
    match headers
    case Some(h) => h
    case None => Keys(data[0])
  }

  function GenerateCSV(data: seq<Record>, headers: Option<seq<string>>): (csv: string)
    ensures data == [] ==> csv == ""
  {
    if data == [] then ""
    else
      var keys := Columns(data, headers);
      var lines := seq(|data|, i requires 0 <= i < |data| => RowLine(data[i], keys));
      Join([Join(keys, ",")] + lines, "\n")
  }

  // ---------------------------------------------------------------------
  // A reader for the dialect the writer emits.

  /** The body of a quoted field (after its opening quote), up to the closing
      quote: the unquoted text and what follows the closing quote. */
  function ReadQuoted(s: string): (r: Option<(string, string)>)
    ensures r.Some? ==> |r.value.1| < |s|
  {
    if s == [] then None
    else if s[0] == '"' then
      if |s| >= 2 && s[1] == '"' then
        match ReadQuoted(s[2..])
        case None => None
        case Some((c, rest)) => Some(("\"" + c, rest))
      else Some(([], s[1..]))
    else
      match ReadQuoted(s[1..])
      case None => None
      case Some((c, rest)) => Some(([s[0]] + c, rest))
  }

  /** An unquoted field: everything up to the next comma or LF. */
  function ReadPlain(s: string): (r: (string, string))
    ensures |r.1| <= |s|
    ensures r.1 == [] || r.1[0] == ',' || r.1[0] == '\n'
  {
    if s == [] || s[0] == ',' || s[0] == '\n' then ([], s)
    else
      var (c, rest) := ReadPlain(s[1..]);
      ([s[0]] + c, rest)
  }

  function ReadField(s: string): (r: Option<(string, string)>)
    ensures r.Some? ==> |r.value.1| <= |s|
  {
    if s != [] && s[0] == '"' then ReadQuoted(s[1..]) else Some(ReadPlain(s))
  }

  /** The fields of one line, and the text after its LF (`None` at the end of
      the input). */
  function ReadFields(s: string): (r: Option<(seq<string>, Option<string>)>)
    ensures r.Some? && r.value.1.Some? ==> |r.value.1.value| < |s|
    decreases |s|
  {
    match ReadField(s)
    case None => None
    case Some((f, rest)) =>
      if rest == [] then Some(([f], None))
      else if rest[0] == '\n' then Some(([f], Some(rest[1..])))
      else if rest[0] == ',' then
        match ReadFields(rest[1..])
        case None => None
        case Some((fs, tail)) => Some(([f] + fs, tail))
      else None
  }

  /** The lines of a document, each a sequence of field values. */
  function ParseCsv(s: string): Option<seq<seq<string>>>
    decreases |s|
  {
    match ReadFields(s)
    case None => None
    case Some((fields, None)) => Some([fields])
    case Some((fields, Some(rest))) =>
      match ParseCsv(rest)
      case None => None
      case Some(lines) => Some([fields] + lines)
  }

  /** What may follow a field: the end, a comma or a line break. */
  predicate AtBoundary(t: string)
  {
    t == [] || t[0] == ',' || t[0] == '\n'
  }

  lemma {:induction false} ReadQuotedDoubled(v: string, t: string)
    requires AtBoundary(t)
    ensures ReadQuoted(DoubleQuotes(v) + "\"" + t) == Some((v, t))
  {
    var s := DoubleQuotes(v) + "\"" + t;
    if v == [] {
      assert s == "\"" + t;
      assert s[1..] == t;
    } else {
      ReadQuotedDoubled(v[1..], t);
      assert [v[0]] + v[1..] == v;
      if v[0] == '"' {
        assert s == "\"\"" + (DoubleQuotes(v[1..]) + "\"" + t);
        assert s[2..] == DoubleQuotes(v[1..]) + "\"" + t;
      } else {
        assert s == [v[0]] + (DoubleQuotes(v[1..]) + "\"" + t);
        assert s[1..] == DoubleQuotes(v[1..]) + "\"" + t;
      }
    }
  }

  lemma {:induction false} ReadPlainUnquoted(v: string, t: string)
    requires ',' !in v && '\n' !in v
    requires AtBoundary(t)
    ensures ReadPlain(v + t) == (v, t)
  {
    if v == [] {
      assert v + t == t;
    } else {
      assert v[0] in v;
      assert (v + t)[0] == v[0];
      assert (v + t)[1..] == v[1..] + t;
      ReadPlainUnquoted(v[1..], t);
      assert [v[0]] + v[1..] == v;
    }
  }

  lemma ReadFieldQuoted(v: string, t: string)
    requires NeedsQuoting(v) && AtBoundary(t)
    ensures ReadField(Escape(v) + t) == Some((v, t))
  {
    var q := DoubleQuotes(v) + "\"" + t;
    var s := "\"" + q;
    assert Escape(v) == "\"" + DoubleQuotes(v) + "\"";
    assert Escape(v) + t == s;
    assert s[0] == '"' && s[1..] == q;
    ReadQuotedDoubled(v, t);
    assert ReadField(s) == ReadQuoted(q);
  }

  lemma ReadFieldUnquoted(v: string, t: string)
    requires !NeedsQuoting(v) && AtBoundary(t)
    ensures ReadField(Escape(v) + t) == Some((v, t))
  {
    ReadPlainUnquoted(v, t);
    if v != [] {
      assert v[0] in v;
      assert (v + t)[0] == v[0];
    }
  }

  /** A written field reads back as its value, whatever boundary follows. */
  lemma ReadFieldEscape(v: string, t: string)
    requires AtBoundary(t)
    ensures ReadField(Escape(v) + t) == Some((v, t))
  {
    if NeedsQuoting(v) {
      ReadFieldQuoted(v, t);
    } else {
      ReadFieldUnquoted(v, t);
    }
  }

  /** The line the writer makes of a list of values. */
  function WrittenLine(vs: seq<string>): string
  {
    Join(seq(|vs|, i requires 0 <= i < |vs| => Escape(vs[i])), ",")
  }

  lemma WrittenLineCons(vs: seq<string>)
    requires |vs| >= 2
    ensures WrittenLine(vs) == Escape(vs[0]) + ("," + WrittenLine(vs[1..]))
  {
    var es := seq(|vs|, i requires 0 <= i < |vs| => Escape(vs[i]));
    assert es[1..] == seq(|vs[1..]|, i requires 0 <= i < |vs[1..]| => Escape(vs[1..][i]));
  }

  /** A written field then a comma: the field, then the rest of the line. */
  lemma ReadFieldsCons(v: string, rest: string)
    ensures ReadFields(Escape(v) + ("," + rest)) ==
      match ReadFields(rest)
      case None => None
      case Some((fs, tail)) => Some(([v] + fs, tail))
  {
    ReadFieldEscape(v, "," + rest);
    assert ("," + rest)[1..] == rest;
  }

  lemma ReadFieldsLast(v: string, t: string)
    requires t == [] || t[0] == '\n'
    ensures ReadFields(Escape(v) + t) == Some(([v], if t == [] then None else Some(t[1..])))
  {
    ReadFieldEscape(v, t);
  }

  lemma {:induction false} ReadFieldsWrittenLine(vs: seq<string>, t: string)
    requires vs != []
    requires t == [] || t[0] == '\n'
    ensures ReadFields(WrittenLine(vs) + t) == Some((vs, if t == [] then None else Some(t[1..])))
  {
    if |vs| == 1 {
      var es := seq(|vs|, i requires 0 <= i < |vs| => Escape(vs[i]));
      assert es == [Escape(vs[0])];
      ReadFieldsLast(vs[0], t);
      assert vs == [vs[0]];
    } else {
      var tail := WrittenLine(vs[1..]);
      WrittenLineCons(vs);
      assert WrittenLine(vs) + t == Escape(vs[0]) + ("," + (tail + t));
      ReadFieldsCons(vs[0], tail + t);
      ReadFieldsWrittenLine(vs[1..], t);
      assert [vs[0]] + vs[1..] == vs;
    }
  }

  /** The written form of each line of a table. */
  function WrittenLines(lines: seq<seq<string>>): seq<string>
  {
    seq(|lines|, i requires 0 <= i < |lines| => WrittenLine(lines[i]))
  }

  lemma WrittenLinesCons(lines: seq<seq<string>>)
    requires lines != []
    ensures WrittenLines(lines) == [WrittenLine(lines[0])] + WrittenLines(lines[1..])
  {
    var ws := WrittenLines(lines);
    assert ws[1..] == WrittenLines(lines[1..]);
  }

  lemma JoinCons(parts: seq<string>, sep: string)
    requires |parts| >= 2
    ensures Join(parts, sep) == parts[0] + (sep + Join(parts[1..], sep))
  {
    assert parts[0] + sep + Join(parts[1..], sep) == parts[0] + (sep + Join(parts[1..], sep));
  }

  /** A line that ends in a line break is followed by the lines after it. */
  lemma ParseCsvNextLine(s: string, fields: seq<string>, rest: string)
    requires ReadFields(s) == Some((fields, Some(rest)))
    ensures ParseCsv(s) == match ParseCsv(rest) case None => None case Some(ls) => Some([fields] + ls)
  {
  }

  lemma {:induction false} ParseCsvWrittenLines(lines: seq<seq<string>>)
    requires lines != [] && forall i :: 0 <= i < |lines| ==> lines[i] != []
    ensures ParseCsv(Join(WrittenLines(lines), "\n")) == Some(lines)
  {
    var ws := WrittenLines(lines);
    WrittenLinesCons(lines);
    if |lines| == 1 {
      assert ws == [WrittenLine(lines[0])];
      assert Join(ws, "\n") == WrittenLine(lines[0]) + [];
      ReadFieldsWrittenLine(lines[0], []);
      assert lines == [lines[0]];
    } else {
      var rest := Join(WrittenLines(lines[1..]), "\n");
      JoinCons(ws, "\n");
      ReadFieldsWrittenLine(lines[0], "\n" + rest);
      assert ("\n" + rest)[1..] == rest;
      ParseCsvNextLine(WrittenLine(lines[0]) + ("\n" + rest), lines[0], rest);
      ParseCsvWrittenLines(lines[1..]);
      assert [lines[0]] + lines[1..] == lines;
    }
  }

  /** A header name that the writer leaves as it is and the reader reads back. */
  predicate PlainName(h: string)
  {
    !NeedsQuoting(h)
  }

  /** The whole-document round trip: reading what `GenerateCSV` writes gives
      the column names, then for each row its values under those columns in
      column order ("" for null or missing) — one line per row even when a
      value holds a line break. */
  lemma GenerateCSVRoundTrip(data: seq<Record>, headers: Option<seq<string>>)
    requires data != []
    requires Columns(data, headers) != []
    requires forall i :: 0 <= i < |Columns(data, headers)| ==> PlainName(Columns(data, headers)[i])
    ensures ParseCsv(GenerateCSV(data, headers)) ==
      Some([Columns(data, headers)] +
           seq(|data|, i requires 0 <= i < |data| => Values(data[i], Columns(data, headers))))
  {
    var keys := Columns(data, headers);
    var table := [keys] + seq(|data|, i requires 0 <= i < |data| => Values(data[i], keys));
    var ws := WrittenLines(table);
    var lines := seq(|data|, i requires 0 <= i < |data| => RowLine(data[i], keys));
    HeaderIsWrittenLine(keys);
    forall r | 0 <= r < |data|
      ensures ws[r + 1] == lines[r]
    {
      RowLineIsWrittenLine(data[r], keys);
    }
    assert ws == [Join(keys, ",")] + lines;
    ParseCsvWrittenLines(table);
  }

  /** The header line is the column names joined by commas, never escaped,
      whatever characters the names hold; a line break follows it. */
  lemma HeaderWrittenAsIs(data: seq<Record>, headers: Option<seq<string>>)
    requires data != []
    ensures Join(Columns(data, headers), ",") + "\n" <= GenerateCSV(data, headers)
  {
    var keys := Columns(data, headers);
    var lines := seq(|data|, i requires 0 <= i < |data| => RowLine(data[i], keys));
    var all := [Join(keys, ",")] + lines;
    assert all[1..] == lines;
    JoinCons(all, "\n");
    var h := Join(keys, ",") + "\n";
    assert GenerateCSV(data, headers) == h + Join(lines, "\n");
  }

  /** Plain column names are written as they are. */
  lemma HeaderIsWrittenLine(keys: seq<string>)
    requires forall i :: 0 <= i < |keys| ==> PlainName(keys[i])
    ensures Join(keys, ",") == WrittenLine(keys)
  {
    assert seq(|keys|, i requires 0 <= i < |keys| => Escape(keys[i])) == keys;
  }

  /** A row's line is the written line of its values under the columns. */
  lemma RowLineIsWrittenLine(row: Record, keys: seq<string>)
    ensures RowLine(row, keys) == WrittenLine(Values(row, keys))
  {
    var vs := Values(row, keys);
    assert seq(|vs|, i requires 0 <= i < |vs| => Escape(vs[i]))
        == seq(|keys|, i requires 0 <= i < |keys| => Cell(row, keys[i]));
  }

  /** Every row line has exactly as many fields as there are columns. */
  lemma RowHasOneFieldPerColumn(row: Record, keys: seq<string>)
    requires keys != []
    ensures ParseCsv(RowLine(row, keys)) == Some([Values(row, keys)])
  {
    var vs := Values(row, keys);
    RowLineIsWrittenLine(row, keys);
    ParseCsvWrittenLines([vs]);
    var ws := seq(1, i requires 0 <= i < 1 => WrittenLine([vs][i]));
    assert Join(ws, "\n") == RowLine(row, keys);
  }

  /** How many times `c` occurs in `s`. */
  function Occurrences(c: char, s: string): (n: nat)
    ensures n == 0 <==> c !in s
  {
    if s == [] then 0 else (if s[0] == c then 1 else 0) + Occurrences(c, s[1..])
  }

  lemma {:induction false} OccurrencesConcat(c: char, a: string, b: string)
    ensures Occurrences(c, a + b) == Occurrences(c, a) + Occurrences(c, b)
  {
    if a != [] {
      assert (a + b)[1..] == a[1..] + b;
      OccurrencesConcat(c, a[1..], b);
    } else {
      assert a + b == b;
    }
  }

  /** Joining parts free of `c` with a separator free of `c` gives text free of `c`. */
  lemma {:induction false} JoinWithout(c: char, parts: seq<string>, sep: string)
    requires c !in sep
    requires forall i :: 0 <= i < |parts| ==> c !in parts[i]
    ensures c !in Join(parts, sep)
  {
    if |parts| >= 2 {
      JoinWithout(c, parts[1..], sep);
      assert Join(parts, sep) == parts[0] + sep + Join(parts[1..], sep);
      assert c !in parts[0];
    }
  }

  /** Joining parts free of `c` with `c` alone puts one `c` between each pair of neighbours. */
  lemma {:induction false} JoinCount(c: char, parts: seq<string>)
    requires parts != []
    requires forall i :: 0 <= i < |parts| ==> c !in parts[i]
    ensures Occurrences(c, Join(parts, [c])) == |parts| - 1
  {
    if |parts| == 1 {
      assert c !in parts[0];
    } else {
      var tail := Join(parts[1..], [c]);
      assert Join(parts, [c]) == parts[0] + [c] + tail;
      JoinCount(c, parts[1..]);
      OccurrencesConcat(c, parts[0] + [c], tail);
      OccurrencesConcat(c, parts[0], [c]);
      assert Occurrences(c, parts[0]) == 0 by { assert c !in parts[0]; }
      assert Occurrences(c, [c]) == 1;
    }
  }

  /** No cell of a row holds a line break when no value does. */
  lemma CellsHaveNoLineBreak(row: Record, keys: seq<string>)
    requires forall k, v :: 0 <= k < |row| && row[k].1 == Some(v) ==> '\n' !in v
    ensures '\n' !in RowLine(row, keys)
  {
    var cells := seq(|keys|, i requires 0 <= i < |keys| => Cell(row, keys[i]));
    forall k | 0 <= k < |keys|
      ensures '\n' !in cells[k]
    {
      var g := Get(row, keys[k]);
      if g.Some? {
        var j :| 0 <= j < |row| && row[j] == (keys[k], g);
      }
    }
    JoinWithout('\n', cells, ",");
  }

  /** With no line break in any value or column name, the output has exactly
      one line per row plus the header line: |data| line breaks. */
  lemma LineBreaksAreRowCount(data: seq<Record>, headers: Option<seq<string>>)
    requires data != []
    requires forall i :: 0 <= i < |Columns(data, headers)| ==> '\n' !in Columns(data, headers)[i]
    requires forall r, k, v :: 0 <= r < |data| && 0 <= k < |data[r]| && data[r][k].1 == Some(v) ==> '\n' !in v
    ensures Occurrences('\n', GenerateCSV(data, headers)) == |data|
  {
    var keys := Columns(data, headers);
    var lines := seq(|data|, i requires 0 <= i < |data| => RowLine(data[i], keys));
    JoinWithout('\n', keys, ",");
    forall r | 0 <= r < |data|
      ensures '\n' !in lines[r]
    {
      CellsHaveNoLineBreak(data[r], keys);
    }
    var all := [Join(keys, ",")] + lines;
    assert forall i :: 0 <= i < |all| ==> '\n' !in all[i];
    JoinCount('\n', all);
  }
}
