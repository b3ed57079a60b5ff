/**
 * `Parser::parse_input`: trims the pasted text, picks the delimiter, cuts
 * it into rows, takes the first row as headers, requires a Price column,
 * builds one row object per data row that is not blank, numbering them from
 * 2, and, for a product, reconciles them with its existing variations.
 */
module Parsing {
  import opened Wrappers
  import opened Seqs
  import opened Dicts
  import opened Text
  import opened Headers
  import opened Variations
  import opened Platform
  import opened Matcher

  /** The three ways parsing fails, each reported as the only error. */
  datatype ParseError = EmptyInput | NoValidRows | MissingPriceColumn

  /** The array `parse_input` returns. */
  datatype ParseResult = ParseResult(success: bool, data: seq<VariationData>, errors: seq<ParseError>, headers: seq<string>)

  /** What a result says, with each row object read as its state. */
  datatype ParseOutcome = ParseOutcome(success: bool, rows: seq<RowState>, errors: seq<ParseError>, headers: seq<string>)

  /** `empty(array_filter($row))`: every field is one PHP counts as empty. */
  predicate IsBlankRow(row: seq<string>) {
    forall i :: 0 <= i < |row| ==> IsPhpEmpty(row[i])
  }

  /** The data rows the loop does not skip, in order. */
  function KeptRows(rows: seq<seq<string>>): seq<seq<string>> {
    if rows == [] then []
    else
      var n := |rows| - 1;
      KeptRows(rows[..n]) + if IsBlankRow(rows[n]) then [] else [rows[n]]
  }

  /** A freshly built row object, before any matching. */
  function Initial(r: RowArray): RowState {
    RowState(r, None, None, None)
  }

  /** The object the loop builds for a kept row with the given number. */
  function Built(headers: seq<string>, row: seq<string>, rowNumber: int, clean: string -> string): RowState {
    Initial(Construct(CombineHeadersWithRow(headers, row), rowNumber, clean))
  }

  /** What `build` makes of each kept row, the `j`-th numbered `2 + j`. */
  function NumberedBy(kept: seq<seq<string>>, build: (seq<string>, int) -> RowState): (r: seq<RowState>)
    ensures |r| == |kept|
  {
    if kept == [] then []
    else
      var n := |kept| - 1;
      NumberedBy(kept[..n], build) + [build(kept[n], 2 + n)]
  }

  /** The row objects built from the kept rows, numbered from 2 in order. */
  function Numbered(headers: seq<string>, kept: seq<seq<string>>, clean: string -> string): (r: seq<RowState>)
    ensures |r| == |kept|
  {
    NumberedBy(kept, (row, n) => Built(headers, row, n, clean))
  }

  /** The whole of `parse_input`, with `product` what `wc_get_product` finds for `productId`. */
  function ParseSpec(raw: string, productId: int, product: Option<ProductSnapshot>, p: Platform, termName: TermNames): (r: ParseOutcome)
    ensures r.success <==> r.errors == []
    ensures !r.success ==> r.rows == [] && |r.errors| == 1
  {
    var input := Trim(raw);
    if IsPhpEmpty(input) then ParseOutcome(false, [], [EmptyInput], [])
    else
      var rows := ParseCsv(input, DetectDelimiter(input));
      if rows == [] then ParseOutcome(false, [], [NoValidRows], [])
      else
        var headers := NormalizeHeaders(rows[0]);
        if !HasPriceColumn(headers) then ParseOutcome(false, [], [MissingPriceColumn], headers)
        else
          ParseOutcome(true, ParsedData(headers, rows[1..], productId, product, p, termName), [], headers)
  }

  /**
   * The kept rows are the rows that are not blank, in their order: none is
   * blank, each non-blank row is kept, and there are never more of them.
   */
  lemma {:induction false} KeptRowsFacts(rows: seq<seq<string>>)
    ensures |KeptRows(rows)| <= |rows|
    ensures forall r :: r in KeptRows(rows) ==> !IsBlankRow(r) && r in rows
    ensures forall r :: r in rows && !IsBlankRow(r) ==> r in KeptRows(rows)
    ensures (forall i :: 0 <= i < |rows| ==> !IsBlankRow(rows[i])) ==> KeptRows(rows) == rows
    decreases |rows|
  {
    if rows != [] {
      var n := |rows| - 1;
      var front := rows[..n];
      KeptRowsFacts(front);
      assert rows == front + [rows[n]];
      forall r | r in rows && !IsBlankRow(r)
        ensures r in KeptRows(rows)
      {
        if r != rows[n] {
          assert r in front;
        }
      }
    }
  }

  /** One more row read by the loop. */
  lemma KeptRowsSnoc(rows: seq<seq<string>>, i: nat)
    requires i < |rows|
    ensures KeptRows(rows[..i + 1]) == KeptRows(rows[..i]) + if IsBlankRow(rows[i]) then [] else [rows[i]]
  {
    TakeStep(rows, i);
  }

  lemma NumberedBySnoc(kept: seq<seq<string>>, row: seq<string>, build: (seq<string>, int) -> RowState)
    ensures NumberedBy(kept + [row], build) == NumberedBy(kept, build) + [build(row, 2 + |kept|)]
  {
    assert (kept + [row])[..|kept|] == kept;
  }

  lemma {:induction false} NumberedByAt(kept: seq<seq<string>>, build: (seq<string>, int) -> RowState, j: nat)
    requires j < |kept|
    ensures NumberedBy(kept, build)[j] == build(kept[j], 2 + j)
    decreases |kept|
  {
    var n := |kept| - 1;
    if j < n {
      NumberedByAt(kept[..n], build, j);
      assert kept[..n][j] == kept[j];
    }
  }

  /** One more kept row is one more row object, numbered after the others. */
  lemma NumberedSnoc(headers: seq<string>, kept: seq<seq<string>>, row: seq<string>, clean: string -> string)
    ensures Numbered(headers, kept + [row], clean) == Numbered(headers, kept, clean) + [Built(headers, row, 2 + |kept|, clean)]
  {
    NumberedBySnoc(kept, row, (row, n) => Built(headers, row, n, clean));
  }

  /** The `j`-th object is built from the `j`-th kept row and numbered `2 + j`. */
  lemma NumberedAt(headers: seq<string>, kept: seq<seq<string>>, clean: string -> string, j: nat)
    requires j < |kept|
    ensures Numbered(headers, kept, clean)[j] == Built(headers, kept[j], 2 + j, clean)
  {
    NumberedByAt(kept, (row, n) => Built(headers, row, n, clean), j);
  }

  /**
   * Every row object built holds the row's number (2 for the first kept
   * row, one more for each next one), a price (the Price column is always
   * there), no errors and no match yet.
   */
  lemma NumberedRows(headers: seq<string>, kept: seq<seq<string>>, clean: string -> string)
    requires HasPriceColumn(headers)
    ensures forall j :: 0 <= j < |kept| ==>
      var s := Numbered(headers, kept, clean)[j];
      && s.row.rowNumber == 2 + j
      && s.row.price.Some?
      && s.row.errors == []
      && s.status == None && s.existingId == None
  {
    forall j | 0 <= j < |kept|
      ensures var s := Numbered(headers, kept, clean)[j];
        && s.row.rowNumber == 2 + j
        && s.row.price.Some?
        && s.row.errors == []
        && s.status == None && s.existingId == None
    {
      NumberedAt(headers, kept, clean, j);
      PriceAlwaysPresent(headers, kept[j]);
    }
  }

  /** Input that is empty once trimmed fails with exactly one error and no rows or headers. */
  lemma EmptyInputFails(raw: string, productId: int, product: Option<ProductSnapshot>, p: Platform, termName: TermNames)
    requires IsPhpEmpty(Trim(raw))
    ensures ParseSpec(raw, productId, product, p, termName) == ParseOutcome(false, [], [EmptyInput], [])
  {
  }

  /**
   * Headers without a Price column, in any case, fail with one error; the
   * headers still come back, one per raw header, trimmed and title-cased.
   */
  lemma MissingPriceFails(raw: string, productId: int, product: Option<ProductSnapshot>, p: Platform, termName: TermNames)
    requires !IsPhpEmpty(Trim(raw))
    requires var input := Trim(raw); var rows := ParseCsv(input, DetectDelimiter(input));
      rows != [] && !HasPriceColumn(NormalizeHeaders(rows[0]))
    ensures var r := ParseSpec(raw, productId, product, p, termName);
      var input := Trim(raw); var rows := ParseCsv(input, DetectDelimiter(input));
      && !r.success && r.errors == [MissingPriceColumn] && r.rows == []
      && |r.headers| == |rows[0]|
      && forall i :: 0 <= i < |rows[0]| ==> r.headers[i] == ToProperCase(rows[0][i])
  {
    var input := Trim(raw);
    var rows := ParseCsv(input, DetectDelimiter(input));
    NormalizedHeaders(rows[0]);
  }

  /**
   * Without a product to match against, a successful parse gives one row
   * object per non-blank data row, numbered from 2, never more than the
   * input has lines after the header line.
   */
  lemma ParsedRows(raw: string, productId: int, product: Option<ProductSnapshot>, p: Platform, termName: TermNames)
    requires productId <= 0
    ensures var r := ParseSpec(raw, productId, product, p, termName);
      r.success ==>
        && |r.rows| <= CountChar(Trim(raw), Newline)
        && forall j :: 0 <= j < |r.rows| ==>
          r.rows[j].row.rowNumber == 2 + j && r.rows[j].row.price.Some? && r.rows[j].row.errors == []
  {
    var r := ParseSpec(raw, productId, product, p, termName);
    var input := Trim(raw);
    if r.success {
      var d := DetectDelimiter(input);
      var rows := ParseCsv(input, d);
      var headers := NormalizeHeaders(rows[0]);
      var kept := KeptRows(rows[1..]);
      ParseCsvBound(input, d);
      KeptRowsFacts(rows[1..]);
      NumberedRows(headers, kept, p.sanitizeText);
    }
  }

  /** `parse_input($input, $product_id)`. */
  method ParseInput(raw: string, productId: int, product: Option<ProductSnapshot>, p: Platform, termName: TermNames)
    returns (r: ParseResult)
    ensures ParseOutcome(r.success, States(r.data), r.errors, r.headers) == ParseSpec(raw, productId, product, p, termName)
    ensures forall i :: 0 <= i < |r.data| ==> fresh(r.data[i])
    ensures Distinct(r.data)
  {
    var input := Trim(raw);
    if IsPhpEmpty(input) {
      return ParseResult(false, [], [EmptyInput], []);
    }
    var d := DetectDelimiter(input);
    var rows := ParseCsv(input, d);
    if rows == [] {
      return ParseResult(false, [], [NoValidRows], []);
    }
    var headers := NormalizeHeaders(rows[0]);
    if !HasPriceColumn(headers) {
      return ParseResult(false, [], [MissingPriceColumn], headers);
    }
    var variations := ParseRows(headers, rows[1..], productId, product, p, termName);
    r := ParseResult(true, variations, [], headers);
  }

  /** The row objects of a successful parse: built from the data rows, then matched for a product. */
  function ParsedData(headers: seq<string>, data: seq<seq<string>>, productId: int, product: Option<ProductSnapshot>, p: Platform, termName: TermNames): seq<RowState> {
    var built := Numbered(headers, KeptRows(data), p.sanitizeText);
    if productId > 0 then MatchSpec(built, product, headers, p, termName) else built
  }

  /** The data rows turned into row objects, then reconciled with the product's variations when there is one. */
  method ParseRows(headers: seq<string>, data: seq<seq<string>>, productId: int, product: Option<ProductSnapshot>, p: Platform, termName: TermNames)
    returns (variations: seq<VariationData>)
    requires HasPriceColumn(headers)
    ensures States(variations) == ParsedData(headers, data, productId, product, p, termName)
    ensures forall i :: 0 <= i < |variations| ==> fresh(variations[i])
    ensures Distinct(variations)
  {
    variations := BuildRows(headers, data, p.sanitizeText);
    if productId > 0 {
      var built := variations;
      variations := MatchExistingVariations(built, product, headers, p, termName);
      forall i | |variations| - |built| <= i < |variations|
        ensures fresh(variations[i])
      {
        assert variations[i] == variations[|variations| - |built|..][i - (|variations| - |built|)];
      }
    }
  }

  /** The `foreach` over the data rows, with its `$row_number` counter. */
  method BuildRows(headers: seq<string>, data: seq<seq<string>>, clean: string -> string) returns (variations: seq<VariationData>)
    requires HasPriceColumn(headers)
    ensures States(variations) == Numbered(headers, KeptRows(data), clean)
    ensures forall i :: 0 <= i < |variations| ==> fresh(variations[i])
    ensures Distinct(variations)
  {
    variations := [];
    var rowNumber := 2;
    var i := 0;
    while i < |data|
      invariant 0 <= i <= |data|
      invariant States(variations) == Numbered(headers, KeptRows(data[..i]), clean)
      invariant rowNumber == 2 + |KeptRows(data[..i])|
      invariant forall k :: 0 <= k < |variations| ==> fresh(variations[k])
      invariant Distinct(variations)
    {
      KeptRowsSnoc(data, i);
      var prev := variations;
      variations, rowNumber := ParseRow(headers, data[i], rowNumber, prev, KeptRows(data[..i]), clean);
      forall k | 0 <= k < |variations|
        ensures fresh(variations[k])
      {
        if k < |prev| {
          assert variations[k] == variations[..|prev|][k] == prev[k];
        } else {
          assert k == |prev|;
        }
      }
      i := i + 1;
    }
    TakeAll(data);
  }

  /** One pass of the loop: a blank row is skipped, any other becomes the next row object. */
  method ParseRow(headers: seq<string>, row: seq<string>, rowNumber: int, vs: seq<VariationData>,
                  ghost kept: seq<seq<string>>, clean: string -> string)
    returns (vs': seq<VariationData>, rowNumber': int)
    requires HasPriceColumn(headers)
    requires States(vs) == Numbered(headers, kept, clean) && rowNumber == 2 + |kept|
    requires Distinct(vs)
    ensures var kept' := kept + if IsBlankRow(row) then [] else [row];
      States(vs') == Numbered(headers, kept', clean) && rowNumber' == 2 + |kept'|
    ensures |vs| <= |vs'| <= |vs| + 1 && vs'[..|vs|] == vs
    ensures |vs'| == |vs| + 1 ==> fresh(vs'[|vs|])
    ensures Distinct(vs')
  {
    if IsBlankRow(row) {
      assert kept + [] == kept;
      return vs, rowNumber;
    }
    vs' := AppendRow(headers, row, rowNumber, vs, kept, clean);
    assert kept + (if IsBlankRow(row) then [] else [row]) == kept + [row];
    rowNumber' := rowNumber + 1;
  }

  /** A row that is not blank: its combined data becomes a new row object at the end of the list. */
  method AppendRow(headers: seq<string>, row: seq<string>, rowNumber: int, vs: seq<VariationData>,
                   ghost kept: seq<seq<string>>, clean: string -> string)
    returns (vs': seq<VariationData>)
    requires HasPriceColumn(headers)
    requires States(vs) == Numbered(headers, kept, clean) && rowNumber == 2 + |kept|
    requires Distinct(vs)
    ensures States(vs') == Numbered(headers, kept + [row], clean)
    ensures |vs'| == |vs| + 1 && vs'[..|vs|] == vs && fresh(vs'[|vs|])
    ensures Distinct(vs')
  {
    ghost var before := States(vs);
    var rowData := CombineHeadersWithRow(headers, row);
    PriceAlwaysPresent(headers, row);
    if rowData != [] {
      var v := NewRow(rowData, rowNumber, clean);
      assert States(vs) == before;
      assert States([v]) == [Built(headers, row, rowNumber, clean)];
      vs' := vs + [v];
      StatesAppend(vs, [v]);
      DistinctAppend(vs, [v]);
      NumberedSnoc(headers, kept, row, clean);
    } else {
      assert false;
    }
  }

  /** `new Variation_Data($row_data, $row_number)`. */
  method NewRow(rowData: Dict<string>, rowNumber: int, clean: string -> string) returns (v: VariationData)
    ensures fresh(v)
    ensures v.State() == Initial(Construct(rowData, rowNumber, clean))
  {
    v := new VariationData(rowData, rowNumber, clean);
  }
}
