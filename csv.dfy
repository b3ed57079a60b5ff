/**
 * Tokenising one line with `str_getcsv($line, $delimiter)`, following the
 * quoting rules of section 2 of RFC 4180: a field that starts with a double
 * quote runs to the matching closing quote, a doubled quote inside it stands
 * for one quote, and the delimiter inside quotes is ordinary text. As in
 * PHP, blanks in front of an opening quote are dropped, text after a closing
 * quote is kept as part of the field and an unterminated quote runs to the
 * end of the line.
 */
module Csv {
  import opened Seqs
  import opened Text

  const Quote: char := '"'

  /**
   * The number of blanks (C `isspace`, the delimiter excepted) at the front
   * of a field: PHP skips them when a quote follows them.
   */
  function BlanksBefore(s: string, d: char): (k: nat)
    ensures k <= |s|
  {
    if s != [] && s[0] != d && IsSpace(s[0]) then 1 + BlanksBefore(s[1..], d) else 0
  }

  /** The fields of one line. */
  function Fields(s: string, d: char): (fs: seq<string>)
    ensures |fs| >= 1
    decreases |s|, 1
  {
    var k := BlanksBefore(s, d);
    if k < |s| && s[k] == Quote then Quoted(s[k + 1..], d, []) else Unquoted(s, d, [])
  }

  /** Reading an unquoted part of a field: the delimiter ends it. */
  function Unquoted(s: string, d: char, acc: string): (fs: seq<string>)
    ensures |fs| >= 1
    decreases |s|, 0
  {
    if s == [] then [acc]
    else if s[0] == d then [acc] + Fields(s[1..], d)
    else Unquoted(s[1..], d, acc + [s[0]])
  }

  /** Reading inside quotes: `""` is a literal quote, a lone quote closes the quoted part. */
  function Quoted(s: string, d: char, acc: string): (fs: seq<string>)
    ensures |fs| >= 1
    decreases |s|, 0
  {
    if s == [] then [acc]
    else if s[0] == Quote then
      if |s| > 1 && s[1] == Quote then Quoted(s[2..], d, acc + [Quote])
      else Unquoted(s[1..], d, acc)
    else Quoted(s[1..], d, acc + [s[0]])
  }

  /** A field written with RFC 4180 quoting: enclosed in quotes, inner quotes doubled. */
  function Escape(f: string): (r: string)
    ensures |r| >= |f|
  {
    if f == [] then []
    else (if f[0] == Quote then [Quote, Quote] else [f[0]]) + Escape(f[1..])
  }

  function QuoteField(f: string): string {
    [Quote] + Escape(f) + [Quote]
  }

  function QuoteAll(fs: seq<string>): (r: seq<string>)
    ensures |r| == |fs|
  {
    seq(|fs|, i requires 0 <= i < |fs| => QuoteField(fs[i]))
  }

  /** Inside quotes, the escaped text reads back as the field; reading goes on after the closing quote. */
  lemma {:induction false} QuotedEscape(f: string, rest: string, d: char, acc: string)
    requires rest == [] || rest[0] != Quote
    ensures Quoted(Escape(f) + [Quote] + rest, d, acc) == Unquoted(rest, d, acc + f)
    decreases |f|
  {
    if f == [] {
      assert Escape(f) + [Quote] + rest == [Quote] + rest;
      assert acc + f == acc;
      ConsTail(Quote, rest);
    } else {
      QuotedStep(f, rest, d, acc);
      QuotedEscape(f[1..], rest, d, acc + [f[0]]);
      assert acc + [f[0]] + f[1..] == acc + f;
    }
  }

  /** Inside quotes, the escaped form of the first character reads back as that character. */
  lemma QuotedStep(f: string, rest: string, d: char, acc: string)
    requires f != []
    ensures Quoted(Escape(f) + [Quote] + rest, d, acc) == Quoted(Escape(f[1..]) + [Quote] + rest, d, acc + [f[0]])
  {
    var e := Escape(f) + [Quote] + rest;
    var tail := Escape(f[1..]) + [Quote] + rest;
    if f[0] == Quote {
      assert e == [Quote, Quote] + tail;
      assert e[2..] == tail;
    } else {
      assert e == [f[0]] + tail;
      assert e[1..] == tail;
    }
  }

  /**
   * Round trip: writing fields with RFC 4180 quoting and joining them with
   * the delimiter, then tokenising, gives the fields back.
   */
  lemma {:induction false} FieldsOfQuoted(fs: seq<string>, d: char)
    requires |fs| >= 1
    requires d != Quote
    ensures Fields(Join(QuoteAll(fs), d), d) == fs
    decreases |fs|
  {
    var q := QuoteAll(fs);
    var e := Escape(fs[0]);
    var line := Join(q, d);
    if |fs| == 1 {
      assert line == [Quote] + (e + [Quote] + []);
      assert Fields(line, d) == Quoted(e + [Quote] + [], d, []) by {
        assert BlanksBefore(line, d) == 0;
        assert line[1..] == e + [Quote] + [];
      }
      QuotedEscape(fs[0], [], d, []);
      assert [] + fs[0] == fs[0];
    } else {
      var rest := Join(QuoteAll(fs[1..]), d);
      assert line == [Quote] + (e + [Quote] + ([d] + rest)) by {
        assert QuoteAll(fs)[1..] == QuoteAll(fs[1..]);
      }
      assert Fields(line, d) == Quoted(e + [Quote] + ([d] + rest), d, []) by {
        assert BlanksBefore(line, d) == 0;
        assert line[1..] == e + [Quote] + ([d] + rest);
      }
      QuotedEscape(fs[0], [d] + rest, d, []);
      assert Unquoted([d] + rest, d, [] + fs[0]) == [fs[0]] + Fields(rest, d) by {
        assert [] + fs[0] == fs[0];
        ConsTail(d, rest);
      }
      FieldsOfQuoted(fs[1..], d);
      assert [fs[0]] + fs[1..] == fs;
    }
  }

  /** Blanks that do not include the delimiter and are followed by a quote are all skipped. */
  lemma {:induction false} BlanksBeforeQuote(w: string, t: string, d: char)
    requires AllSpace(w) && d !in w
    requires t != [] && t[0] == Quote
    ensures BlanksBefore(w + t, d) == |w|
    decreases |w|
  {
    if w != [] {
      assert (w + t)[1..] == w[1..] + t;
      BlanksBeforeQuote(w[1..], t, d);
    } else {
      assert w + t == t;
    }
  }

  /**
   * Blanks in front of a quoted field are dropped: the field reads back as
   * it was written, and reading goes on after the delimiter that follows it.
   */
  lemma QuotedFieldAfterBlanks(w: string, f: string, rest: string, d: char)
    requires AllSpace(w) && d !in w && d != Quote
    ensures Fields(w + QuoteField(f) + [d] + rest, d) == [f] + Fields(rest, d)
  {
    var t := QuoteField(f) + [d] + rest;
    assert w + QuoteField(f) + [d] + rest == w + t;
    BlanksBeforeQuote(w, t, d);
    assert (w + t)[|w| + 1..] == Escape(f) + [Quote] + ([d] + rest);
    QuotedEscape(f, [d] + rest, d, []);
    assert [] + f == f;
    ConsTail(d, rest);
  }

  /** With a blank after each comma, `Twin Room, "1, 2", 100` has three fields. */
  lemma BlankBeforeQuoteExample(s: string)
    requires s == "Twin Room, \"1, 2\", 100"
    ensures Fields(s, ',') == ["Twin Room", "1, 2", " 100"]
  {
    var q := QuoteField("1, 2");
    assert q == "\"1, 2\"" by {
      assert Escape("1, 2") == "1, 2";
    }
    var rest := " " + q + [','] + " 100";
    assert s == "Twin Room" + [','] + rest;
    assert Fields(s, ',') == Unquoted(s, ',', []) by {
      assert BlanksBefore(s, ',') == 0;
    }
    assert Fields(s, ',') == ["Twin Room"] + Fields(rest, ',') by {
      UnquotedToDelimiter("Twin Room", rest, ',', []);
      assert [] + "Twin Room" == "Twin Room";
    }
    assert Fields(rest, ',') == ["1, 2"] + Fields(" 100", ',') by {
      QuotedFieldAfterBlanks(" ", "1, 2", " 100", ',');
    }
    assert Fields(" 100", ',') == [" 100"] by {
      PlainSplit(" 100", ',');
      assert ',' !in " 100";
    }
  }

  /** Unquoted reading takes everything up to the delimiter, quotes included, into the field. */
  lemma {:induction false} UnquotedToDelimiter(a: string, rest: string, d: char, acc: string)
    requires d !in a
    ensures Unquoted(a + [d] + rest, d, acc) == [acc + a] + Fields(rest, d)
    decreases |a|
  {
    if a == [] {
      assert a + [d] + rest == [d] + rest;
      ConsTail(d, rest);
      assert acc + a == acc;
    } else {
      assert (a + [d] + rest)[1..] == a[1..] + [d] + rest;
      UnquotedToDelimiter(a[1..], rest, d, acc + [a[0]]);
      assert acc + [a[0]] + a[1..] == acc + a;
    }
  }

  /** Unquoted reading of text without quotes continues the current field up to the first delimiter. */
  lemma {:induction false} UnquotedPlain(s: string, d: char, acc: string)
    requires Quote !in s && d != Quote
    ensures Unquoted(s, d, acc) == [acc + Split(s, d)[0]] + Split(s, d)[1..]
    decreases |s|, 0
  {
    if s == [] {
      assert acc + [] == acc;
    } else if s[0] == d {
      FindAt(s, d, 0);
      assert s[..0] == [];
      assert acc + [] == acc;
      PlainSplit(s[1..], d);
    } else {
      UnquotedPlain(s[1..], d, acc + [s[0]]);
      SplitSkip(s, d);
      assert acc + [s[0]] + Split(s[1..], d)[0] == acc + ([s[0]] + Split(s[1..], d)[0]);
    }
  }

  /** `explode` of a string not starting with the separator extends the first part by that character. */
  lemma SplitSkip(s: string, d: char)
    requires s != [] && s[0] != d
    ensures Split(s, d) == [[s[0]] + Split(s[1..], d)[0]] + Split(s[1..], d)[1..]
  {
    var i := Find(s, d);
    var j := Find(s[1..], d);
    if j < |s| - 1 {
      assert s[1..][..j] == s[1..j + 1];
      FindAt(s, d, j + 1);
      assert s[j + 2..] == s[1..][j + 1..];
      assert s[..j + 1] == [s[0]] + s[1..][..j];
    } else {
      assert d !in s[1..];
      assert d !in s;
      assert i == |s|;
      assert s[1..][..j] == s[1..];
      assert s == [s[0]] + s[1..];
    }
  }

  /**
   * A line without any double quote is tokenised exactly as `explode` on the
   * delimiter would split it.
   */
  lemma {:induction false} PlainSplit(s: string, d: char)
    requires Quote !in s && d != Quote
    ensures Fields(s, d) == Split(s, d)
    decreases |s|, 1
  {
    UnquotedPlain(s, d, []);
    assert [] + Split(s, d)[0] == Split(s, d)[0];
  }
}
