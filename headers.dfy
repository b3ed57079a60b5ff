/**
 * The pure steps of `Parser::parse_input`: choosing the delimiter, cutting
 * the text into rows, normalising the header row, checking for a Price
 * column, and pairing each data row with the headers.
 */
module Headers {
  import opened Wrappers
  import opened Seqs
  import opened Dicts
  import opened Text
  import opened Csv

  const Newline: char := '\n'
  const Tab: char := '\t'
  const Comma: char := ','

  /** `detect_delimiter`: tab when the first line has more tabs than commas, comma otherwise. */
  function DetectDelimiter(input: string): char {
    var line := FirstToken(input, Newline);
    if CountChar(line, Tab) > CountChar(line, Comma) then Tab else Comma
  }

  /**
   * For trimmed input the delimiter is decided by the first line (the text
   * before the first newline) alone: tab iff it holds strictly more tabs than
   * commas, comma otherwise.
   */
  lemma DelimiterFromFirstLine(raw: string)
    ensures var input := Trim(raw);
      var first := Split(input, Newline)[0];
      && (DetectDelimiter(input) == Tab <==> CountChar(first, Tab) > CountChar(first, Comma))
      && (DetectDelimiter(input) == Comma <==> CountChar(first, Tab) <= CountChar(first, Comma))
  {
    var input := Trim(raw);
    TrimEnds(raw);
    assert DropLeading(input, Newline) == input;
  }

  /** Only the first line matters: what follows the first newline never changes the delimiter. */
  lemma {:induction false} DelimiterIgnoresRest(line: string, rest1: string, rest2: string)
    requires line != [] && Newline !in line
    ensures DetectDelimiter(line + [Newline] + rest1) == DetectDelimiter(line + [Newline] + rest2)
  {
    FirstLineToken(line, rest1);
    FirstLineToken(line, rest2);
  }

  lemma {:induction false} FirstLineToken(line: string, rest: string)
    requires line != [] && Newline !in line
    ensures FirstToken(line + [Newline] + rest, Newline) == line
  {
    var s := line + [Newline] + rest;
    assert s[0] == line[0];
    assert DropLeading(s, Newline) == s;
    assert s[..|line|] == line;
    FindAt(s, Newline, |line|);
  }

  /** The row of one trimmed line, or nothing when it is `empty()`. */
  function LineRow(t: string, d: char): (rows: seq<seq<string>>)
    ensures |rows| <= 1
    ensures forall i :: 0 <= i < |rows| ==> |rows[i]| >= 1
  {
    if IsPhpEmpty(t) then [] else [Fields(t, d)]
  }

  /** The rows of a list of trimmed lines. */
  function CsvRows(ts: seq<string>, d: char): (rows: seq<seq<string>>)
    ensures |rows| <= |ts|
    ensures forall i :: 0 <= i < |rows| ==> |rows[i]| >= 1
  {
    if ts == [] then []
    else
      var head, rest := LineRow(ts[0], d), CsvRows(ts[1..], d);
      assert forall i :: |head| <= i < |head + rest| ==> (head + rest)[i] == rest[i - |head|];
      head + rest
  }

  /** Every line, trimmed. */
  function TrimLines(lines: seq<string>): (ts: seq<string>)
    ensures |ts| == |lines|
  {
    seq(|lines|, i requires 0 <= i < |lines| => Trim(lines[i]))
  }

  /** `parse_csv`: one row per line that is not empty once trimmed. */
  function ParseCsv(input: string, d: char): seq<seq<string>> {
    CsvRows(TrimLines(Split(input, Newline)), d)
  }

  /** There are never more rows than lines, and every row has at least one field. */
  lemma ParseCsvBound(input: string, d: char)
    ensures |ParseCsv(input, d)| <= CountChar(input, Newline) + 1
    ensures forall i :: 0 <= i < |ParseCsv(input, d)| ==> |ParseCsv(input, d)[i]| >= 1
  {
    SplitCount(input, Newline);
  }

  /** A line that is blank (or "0") once trimmed gives no row; any other line gives its fields. */
  lemma {:induction false} CsvRowsSkipBlank(ts: seq<string>, d: char)
    ensures forall i :: 0 <= i < |ts| && !IsPhpEmpty(ts[i]) ==> Fields(ts[i], d) in CsvRows(ts, d)
    ensures (forall i :: 0 <= i < |ts| ==> IsPhpEmpty(ts[i])) <==> CsvRows(ts, d) == []
  {
    if ts != [] {
      var tail := ts[1..];
      CsvRowsSkipBlank(tail, d);
      var rest := CsvRows(tail, d);
      var head := LineRow(ts[0], d);
      assert CsvRows(ts, d) == head + rest;
      forall i | 0 <= i < |ts| && !IsPhpEmpty(ts[i])
        ensures Fields(ts[i], d) in head + rest
      {
        if i == 0 {
          assert head == [Fields(ts[0], d)];
        } else {
          assert ts[i] == tail[i - 1];
        }
      }
      if forall i :: 0 <= i < |ts| ==> IsPhpEmpty(ts[i]) {
        assert forall i :: 0 <= i < |tail| ==> IsPhpEmpty(tail[i]) by {
          forall i | 0 <= i < |tail| ensures IsPhpEmpty(tail[i]) {
            assert tail[i] == ts[i + 1];
          }
        }
      }
    }
  }

  /** `to_proper_case`: trimmed, then title-cased. */
  function ToProperCase(h: string): string {
    TitleCase(Trim(h))
  }

  /** `normalize_headers`. */
  function NormalizeHeaders(raw: seq<string>): seq<string> {
    seq(|raw|, i requires 0 <= i < |raw| => ToProperCase(raw[i]))
  }

  /**
   * Normalising keeps the number and order of headers and changes each one
   * only by trimming it and changing the case of its letters.
   */
  lemma NormalizedHeaders(raw: seq<string>)
    ensures |NormalizeHeaders(raw)| == |raw|
    ensures forall i :: 0 <= i < |raw| ==> Lower(NormalizeHeaders(raw)[i]) == Lower(Trim(raw[i]))
  {
    forall i | 0 <= i < |raw| ensures Lower(NormalizeHeaders(raw)[i]) == Lower(Trim(raw[i])) {
      LowerOfTitle(Trim(raw[i]), false);
    }
  }

  /** A header names the price column when it is `price` in any case. */
  predicate IsPriceHeader(h: string) {
    Lower(h) == "price"
  }

  predicate IsSkuHeader(h: string) {
    Lower(h) == "sku"
  }

  /** `has_price_column`. */
  function HasPriceColumn(headers: seq<string>): (b: bool)
    ensures b <==> exists i :: 0 <= i < |headers| && IsPriceHeader(headers[i])
  {
    if headers == [] then false
    else
      IsPriceHeader(headers[0]) || (
        var b := HasPriceColumn(headers[1..]);
        assert forall i :: 1 <= i < |headers| ==> headers[i] == headers[1..][i - 1];
        b)
  }

  /** The normalised headers have a Price column iff some raw header, trimmed, is `price` in any case. */
  lemma PriceColumnOfRaw(raw: seq<string>)
    ensures HasPriceColumn(NormalizeHeaders(raw)) <==> exists i :: 0 <= i < |raw| && IsPriceHeader(Trim(raw[i]))
  {
    NormalizedHeaders(raw);
    var hs := NormalizeHeaders(raw);
    if HasPriceColumn(hs) {
      var i :| 0 <= i < |hs| && IsPriceHeader(hs[i]);
      assert IsPriceHeader(Trim(raw[i]));
    }
    if exists i :: 0 <= i < |raw| && IsPriceHeader(Trim(raw[i])) {
      var i :| 0 <= i < |raw| && IsPriceHeader(Trim(raw[i]));
      assert IsPriceHeader(hs[i]);
    }
  }

  /** `array_pad` / `array_slice`: exactly `n` cells, the missing ones empty. */
  function PadOrTruncate(row: seq<string>, n: nat): (r: seq<string>)
    ensures |r| == n
    ensures forall i :: 0 <= i < n ==> r[i] == if i < |row| then row[i] else ""
  {
    if |row| < n then row + seq(n - |row|, _ => "") else row[..n]
  }

  /** The key a header's value is stored under: `price`, `sku`, or the header itself. */
  function KeyFor(h: string): string {
    if IsPriceHeader(h) then "price" else if IsSkuHeader(h) then "sku" else h
  }

  function KeyList(headers: seq<string>): (ks: seq<string>)
    ensures |ks| == |headers|
  {
    seq(|headers|, i requires 0 <= i < |headers| => KeyFor(headers[i]))
  }

  /** `combine_headers_with_row`: each header's trimmed cell stored under the header's key. */
  function CombineHeadersWithRow(headers: seq<string>, row: seq<string>): Dict<string> {
    Assign(KeyList(headers), CellValues(row, |headers|))
  }

  /**
   * Every header gets exactly one value: the keys of a combined row are the
   * headers' keys (`price`, `sku` or the header), each once, in the order
   * first seen; each holds a value, and the last header with a given key
   * stores its own trimmed cell there, `''` when the row is too short.
   */
  lemma CombineHeaders(headers: seq<string>, row: seq<string>)
    ensures Keys(CombineHeadersWithRow(headers, row)) == Dedup(KeyList(headers))
    ensures forall i :: 0 <= i < |headers| ==> HasKey(CombineHeadersWithRow(headers, row), KeyFor(headers[i]))
    ensures forall i :: 0 <= i < |headers| && LastOf(KeyList(headers), i) ==>
      Lookup(CombineHeadersWithRow(headers, row), KeyFor(headers[i])) == Some(Trim(CellAt(row, i)))
  {
    var keys := KeyList(headers);
    var values := CellValues(row, |headers|);
    assert CombineHeadersWithRow(headers, row) == Assign(keys, values);
    AssignKeys(keys, values);
    forall i | 0 <= i < |headers|
      ensures HasKey(Assign(keys, values), KeyFor(headers[i]))
      ensures LastOf(keys, i) ==> Lookup(Assign(keys, values), KeyFor(headers[i])) == Some(Trim(CellAt(row, i)))
    {
      AssignValueAt(keys, values, i);
    }
  }

  /** The cell in column `i`: `''` past the end of a short row. */
  function CellAt(row: seq<string>, i: nat): string {
    if i < |row| then row[i] else ""
  }

  /** The trimmed cells of a row padded or truncated to `n` columns. */
  function CellValues(row: seq<string>, n: nat): (vs: seq<string>)
    ensures |vs| == n
    ensures forall i :: 0 <= i < n ==> vs[i] == Trim(CellAt(row, i))
  {
    var cells := PadOrTruncate(row, n);
    seq(n, i requires 0 <= i < n => Trim(cells[i]))
  }

  /** A row paired with headers that have a Price column always carries a `price` entry. */
  lemma PriceAlwaysPresent(headers: seq<string>, row: seq<string>)
    requires HasPriceColumn(headers)
    ensures HasKey(CombineHeadersWithRow(headers, row), "price")
  {
    var i :| 0 <= i < |headers| && IsPriceHeader(headers[i]);
    CombineHeaders(headers, row);
    assert KeyFor(headers[i]) == "price";
  }

  /** A header that is neither Price nor Sku in any case. */
  predicate IsAttributeHeader(h: string) {
    !IsPriceHeader(h) && !IsSkuHeader(h)
  }

  /** `get_attribute_names`: the headers other than Price and Sku, in order. */
  function GetAttributeNames(headers: seq<string>): (names: seq<string>)
    ensures |names| <= |headers|
    ensures forall h :: h in names ==> h in headers && IsAttributeHeader(h)
    ensures forall h :: h in headers && IsAttributeHeader(h) ==> h in names
  {
    if headers == [] then []
    else
      var rest := GetAttributeNames(headers[1..]);
      assert forall i :: 1 <= i < |headers| ==> headers[i] == headers[1..][i - 1];
      if IsAttributeHeader(headers[0]) then [headers[0]] + rest else rest
  }

  /**
   * The names are collected by appending each qualifying header in turn, so
   * a header read last lands last.
   */
  lemma {:induction false} AttributeNamesSnoc(headers: seq<string>, h: string)
    ensures GetAttributeNames(headers + [h]) == GetAttributeNames(headers) + (if IsAttributeHeader(h) then [h] else [])
    decreases |headers|
  {
    if headers != [] {
      assert (headers + [h])[1..] == headers[1..] + [h];
      AttributeNamesSnoc(headers[1..], h);
    }
  }

  /** An attribute header is listed as often as it occurs among the headers, any other never. */
  lemma {:induction false} AttributeNamesCount(headers: seq<string>, h: string)
    ensures multiset(GetAttributeNames(headers))[h] == if IsAttributeHeader(h) then multiset(headers)[h] else 0
    decreases |headers|
  {
    if headers != [] {
      AttributeNamesCount(headers[1..], h);
      assert headers == [headers[0]] + headers[1..];
    }
  }

  /** The attribute names are exactly the headers whose values are stored under their own name. */
  lemma AttributeNamesAreOwnKeys(headers: seq<string>)
    ensures forall h :: h in GetAttributeNames(headers) <==> h in headers && KeyFor(h) == h && h != "price" && h != "sku"
  {
    forall h | h in headers
      ensures IsAttributeHeader(h) <==> KeyFor(h) == h && h != "price" && h != "sku"
    {
      if IsPriceHeader(h) && h != "price" {
        assert KeyFor(h) != h;
      }
      if IsSkuHeader(h) && h != "sku" {
        assert KeyFor(h) != h;
      }
    }
  }
}
