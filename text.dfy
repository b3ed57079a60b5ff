/**
 * The PHP string functions the plugin relies on, over ASCII text:
 * `trim`, `strtolower`, `mb_convert_case(..., MB_CASE_TITLE)`,
 * `preg_replace('/\s+/', ' ', ...)`, `explode`, `implode`, `strtok`,
 * `substr_count`, `empty()` on strings and `floatval`.
 */
module Text {
  import opened Seqs

  /** The characters `trim()` strips by default: " \t\n\r\0\x0B". */
  predicate IsTrimChar(c: char) {
    c == ' ' || c == '\t' || c == '\n' || c == '\r' || c == '\0' || c == '\U{000B}'
  }

  /** The characters PCRE's `\s` matches without the `u` flag: " \t\n\x0B\f\r". */
  predicate IsSpace(c: char) {
    c == ' ' || c == '\t' || c == '\n' || c == '\r' || c == '\U{000B}' || c == '\U{000C}'
  }

  /** Characters that are both trimmed and matched by `\s`. */
  predicate IsBlank(c: char) {
    IsTrimChar(c) && IsSpace(c)
  }

  predicate IsUpper(c: char) { 'A' <= c <= 'Z' }
  predicate IsLower(c: char) { 'a' <= c <= 'z' }
  predicate IsLetter(c: char) { IsUpper(c) || IsLower(c) }
  predicate IsDigit(c: char) { '0' <= c <= '9' }

  predicate AllTrim(s: string) { forall i :: 0 <= i < |s| ==> IsTrimChar(s[i]) }
  predicate AllSpace(s: string) { forall i :: 0 <= i < |s| ==> IsSpace(s[i]) }
  predicate AllBlank(s: string) { forall i :: 0 <= i < |s| ==> IsBlank(s[i]) }

  /** PHP `empty($s)` for a string: true for "" and for "0". */
  predicate IsPhpEmpty(s: string) {
    s == "" || s == "0"
  }

  function LowerChar(c: char): char {
    if IsUpper(c) then (c as int + 32) as char else c
  }

  function UpperChar(c: char): char {
    if IsLower(c) then (c as int - 32) as char else c
  }

  /** `strtolower`. */
  function Lower(s: string): string {
    seq(|s|, i requires 0 <= i < |s| => LowerChar(s[i]))
  }

  /** `strtoupper`. */
  function Upper(s: string): string {
    seq(|s|, i requires 0 <= i < |s| => UpperChar(s[i]))
  }

  lemma LowerAppend(a: string, b: string)
    ensures Lower(a + b) == Lower(a) + Lower(b)
  {
  }

  /** Characters a title-casing pass skips over without ending a word. */
  predicate IsCaseIgnorable(c: char) {
    c == '\'' || c == '.' || c == ':' || c == '^' || c == '`'
  }

  /**
   * `mb_convert_case($s, MB_CASE_TITLE)` on ASCII: a letter is upper-cased
   * when the last character that is not case-ignorable was not a letter, and
   * lower-cased otherwise. `inWord` says whether that character was a letter.
   */
  function TitleFrom(s: string, inWord: bool): string
    decreases |s|
  {
    if s == [] then []
    else
      var c := if inWord then LowerChar(s[0]) else UpperChar(s[0]);
      var next := if IsCaseIgnorable(s[0]) then inWord else IsLetter(s[0]);
      [c] + TitleFrom(s[1..], next)
  }

  function TitleCase(s: string): string {
    TitleFrom(s, false)
  }

  /** Title-casing changes only the case of letters. */
  lemma {:induction false} LowerOfTitle(s: string, inWord: bool)
    ensures Lower(TitleFrom(s, inWord)) == Lower(s)
    decreases |s|
  {
    if s != [] {
      var next := if IsCaseIgnorable(s[0]) then inWord else IsLetter(s[0]);
      LowerOfTitle(s[1..], next);
      LowerAppend([TitleFrom(s, inWord)[0]], TitleFrom(s[1..], next));
      assert s == [s[0]] + s[1..];
      LowerAppend([s[0]], s[1..]);
    }
  }

  /**
   * Title-casing keeps the length; the first character is upper-cased unless
   * the pass starts inside a word, a character right after a letter is
   * lower-cased, and one right after a character that is neither a letter
   * nor case-ignorable (a space or a hyphen, say) is upper-cased.
   */
  lemma {:induction false} TitleFromFacts(s: string, inWord: bool)
    ensures |TitleFrom(s, inWord)| == |s|
    ensures s != [] ==> TitleFrom(s, inWord)[0] == (if inWord then LowerChar(s[0]) else UpperChar(s[0]))
    ensures forall i :: 0 < i < |s| && IsLetter(s[i - 1]) ==> TitleFrom(s, inWord)[i] == LowerChar(s[i])
    ensures forall i :: 0 < i < |s| && !IsLetter(s[i - 1]) && !IsCaseIgnorable(s[i - 1]) ==>
      TitleFrom(s, inWord)[i] == UpperChar(s[i])
    decreases |s|
  {
    if s != [] {
      var next := if IsCaseIgnorable(s[0]) then inWord else IsLetter(s[0]);
      var t := TitleFrom(s[1..], next);
      TitleFromFacts(s[1..], next);
      assert TitleFrom(s, inWord) == [TitleFrom(s, inWord)[0]] + t;
    }
  }

  /**
   * `MB_CASE_TITLE` upper-cases the first character and every character
   * after a separator, and lower-cases every character after a letter.
   */
  lemma TitleCaseWords(s: string)
    ensures |TitleCase(s)| == |s|
    ensures s != [] ==> TitleCase(s)[0] == UpperChar(s[0])
    ensures forall i :: 0 < i < |s| && IsLetter(s[i - 1]) ==> TitleCase(s)[i] == LowerChar(s[i])
    ensures forall i :: 0 < i < |s| && !IsLetter(s[i - 1]) && !IsCaseIgnorable(s[i - 1]) ==>
      TitleCase(s)[i] == UpperChar(s[i])
  {
    TitleFromFacts(s, false);
  }

  /** `ltrim`: drops the leading trim characters. */
  function TrimLeft(s: string): (r: string)
    ensures |r| <= |s|
    decreases |s|
  {
    if s != [] && IsTrimChar(s[0]) then TrimLeft(s[1..]) else s
  }

  /** `rtrim`: drops the trailing trim characters. */
  function TrimRight(s: string): (r: string)
    ensures |r| <= |s|
    decreases |s|
  {
    if s != [] && IsTrimChar(s[|s| - 1]) then TrimRight(s[..|s| - 1]) else s
  }

  /** `ltrim` removes a prefix made only of trim characters and stops at the first other one. */
  lemma {:induction false} TrimLeftFacts(s: string)
    ensures var r := TrimLeft(s);
      && r == s[|s| - |r|..]
      && (r == [] || !IsTrimChar(r[0]))
      && AllTrim(s[..|s| - |r|])
    decreases |s|
  {
    if s != [] && IsTrimChar(s[0]) {
      var r := TrimLeft(s[1..]);
      TrimLeftFacts(s[1..]);
      assert s[..|s| - |r|] == [s[0]] + s[1..][..|s| - 1 - |r|];
    }
  }

  /** `rtrim` removes a suffix made only of trim characters and stops at the last other one. */
  lemma {:induction false} TrimRightFacts(s: string)
    ensures var r := TrimRight(s);
      && r == s[..|r|]
      && (r == [] || !IsTrimChar(r[|r| - 1]))
      && AllTrim(s[|r|..])
    decreases |s|
  {
    if s != [] && IsTrimChar(s[|s| - 1]) {
      var r := TrimRight(s[..|s| - 1]);
      TrimRightFacts(s[..|s| - 1]);
      assert s[|r|..] == s[..|s| - 1][|r|..] + [s[|s| - 1]];
    }
  }

  /** `trim`. */
  function Trim(s: string): string {
    TrimRight(TrimLeft(s))
  }

  /** The result of `trim` has no trim character at either end. */
  lemma TrimEnds(s: string)
    ensures Trim(s) == [] || (!IsTrimChar(Trim(s)[0]) && !IsTrimChar(Trim(s)[|Trim(s)| - 1]))
  {
    TrimLeftFacts(s);
    TrimRightFacts(TrimLeft(s));
  }

  lemma {:induction false} TrimLeftSkip(p: string, z: string)
    requires AllTrim(p)
    ensures TrimLeft(p + z) == TrimLeft(z)
    decreases |p|
  {
    if p != [] {
      assert (p + z)[1..] == p[1..] + z;
      TrimLeftSkip(p[1..], z);
    } else {
      assert p + z == z;
    }
  }

  lemma {:induction false} TrimLeftKeep(x: string, z: string)
    requires !AllTrim(x)
    ensures TrimLeft(x + z) == TrimLeft(x) + z
    decreases |x|
  {
    if IsTrimChar(x[0]) {
      assert (x + z)[1..] == x[1..] + z;
      TrimLeftKeep(x[1..], z);
    }
  }

  lemma {:induction false} TrimRightSkip(z: string, q: string)
    requires AllTrim(q)
    ensures TrimRight(z + q) == TrimRight(z)
    decreases |q|
  {
    if q != [] {
      var q' := q[..|q| - 1];
      assert (z + q)[..|z + q| - 1] == z + q';
      TrimRightSkip(z, q');
    } else {
      assert z + q == z;
    }
  }

  lemma {:induction false} TrimRightKeep(z: string, y: string)
    requires !AllTrim(y)
    ensures TrimRight(z + y) == z + TrimRight(y)
    decreases |y|
  {
    if IsTrimChar(y[|y| - 1]) {
      var y' := y[..|y| - 1];
      assert (z + y)[..|z + y| - 1] == z + y';
      TrimRightKeep(z, y');
    }
  }

  /** Trimming `x + w + y` around a run `w` of trim characters. */
  lemma TrimAroundRun(x: string, w: string, y: string)
    requires AllTrim(w)
    ensures AllTrim(x) ==> Trim(x + w + y) == Trim(y)
    ensures !AllTrim(x) && AllTrim(y) ==> Trim(x + w + y) == Trim(x)
    ensures !AllTrim(x) && !AllTrim(y) ==> Trim(x + w + y) == TrimLeft(x) + w + TrimRight(y)
  {
    if AllTrim(x) {
      assert AllTrim(x + w);
      TrimLeftSkip(x + w, y);
    } else {
      assert x + w + y == x + (w + y);
      TrimLeftKeep(x, w + y);
      if AllTrim(y) {
        assert AllTrim(w + y);
        TrimRightSkip(TrimLeft(x), w + y);
      } else {
        assert TrimLeft(x) + (w + y) == (TrimLeft(x) + w) + y;
        TrimRightKeep(TrimLeft(x) + w, y);
      }
    }
  }

  /** Surrounding a string with trim characters does not change its `trim`. */
  lemma TrimPadded(p: string, s: string, q: string)
    requires AllTrim(p) && AllTrim(q)
    ensures Trim(p + s + q) == Trim(s)
  {
    assert p + s + q == p + (s + q);
    TrimLeftSkip(p, s + q);
    if AllTrim(s) {
      assert AllTrim(s + q);
      TrimLeftSkip(s + q, []);
      assert s + q + [] == s + q;
      TrimLeftSkip(s, []);
      assert s + [] == s;
    } else {
      TrimLeftKeep(s, q);
      TrimRightSkip(TrimLeft(s), q);
    }
  }

  /** Drops the leading `\s` characters. */
  function DropSpaces(s: string): (r: string)
    ensures |r| <= |s| && r == s[|s| - |r|..]
    ensures r == [] || !IsSpace(r[0])
    decreases |s|
  {
    if s != [] && IsSpace(s[0]) then DropSpaces(s[1..]) else s
  }

  /** `preg_replace('/\s+/', ' ', $s)`: every run of `\s` characters becomes one space. */
  function Collapse(s: string): (r: string)
    ensures |r| <= |s|
    ensures r == [] <==> s == []
    ensures s != [] ==> (IsSpace(s[0]) <==> r[0] == ' ')
    ensures forall i :: 0 <= i < |r| && IsSpace(r[i]) ==> r[i] == ' '
    ensures forall i :: 0 <= i < |r| - 1 ==> !(r[i] == ' ' && r[i + 1] == ' ')
    decreases |s|
  {
    if s == [] then []
    else if IsSpace(s[0]) then [' '] + Collapse(DropSpaces(s))
    else [s[0]] + Collapse(s[1..])
  }

  lemma {:induction false} DropSpacesSkip(w: string, b: string)
    requires AllSpace(w)
    ensures DropSpaces(w + b) == DropSpaces(b)
    decreases |w|
  {
    if w != [] {
      assert (w + b)[1..] == w[1..] + b;
      DropSpacesSkip(w[1..], b);
    } else {
      assert w + b == b;
    }
  }

  lemma {:induction false} DropSpacesKeep(a: string, b: string)
    requires !AllSpace(a)
    ensures DropSpaces(a + b) == DropSpaces(a) + b
    decreases |a|
  {
    if IsSpace(a[0]) {
      assert (a + b)[1..] == a[1..] + b;
      DropSpacesKeep(a[1..], b);
    }
  }

  /** Replacing one non-empty run of `\s` characters by another does not change the collapsed text. */
  lemma {:induction false} CollapseRun(a: string, w1: string, w2: string, b: string)
    requires w1 != [] && w2 != [] && AllSpace(w1) && AllSpace(w2)
    ensures Collapse(a + w1 + b) == Collapse(a + w2 + b)
    decreases |a|
  {
    if a == [] {
      assert a + w1 + b == w1 + b && a + w2 + b == w2 + b;
      DropSpacesSkip(w1, b);
      DropSpacesSkip(w2, b);
    } else if !IsSpace(a[0]) {
      CollapseRunLetter(a, w1, w2, b);
    } else if AllSpace(a) {
      assert AllSpace(a + w1) && AllSpace(a + w2);
      DropSpacesSkip(a + w1, b);
      DropSpacesSkip(a + w2, b);
    } else {
      CollapseRunSpaces(a, w1, w2, b);
    }
  }

  lemma {:induction false} CollapseRunLetter(a: string, w1: string, w2: string, b: string)
    requires w1 != [] && w2 != [] && AllSpace(w1) && AllSpace(w2)
    requires a != [] && !IsSpace(a[0])
    ensures Collapse(a + w1 + b) == Collapse(a + w2 + b)
    decreases |a|, 0
  {
    var s1, s2 := a + w1 + b, a + w2 + b;
    TailOfAppend(a, w1 + b);
    TailOfAppend(a, w2 + b);
    AppendAssoc(a, w1, b);
    AppendAssoc(a, w2, b);
    AppendAssoc(a[1..], w1, b);
    AppendAssoc(a[1..], w2, b);
    assert Collapse(s1) == [a[0]] + Collapse(a[1..] + w1 + b);
    assert Collapse(s2) == [a[0]] + Collapse(a[1..] + w2 + b);
    CollapseRun(a[1..], w1, w2, b);
  }

  lemma {:induction false} CollapseRunSpaces(a: string, w1: string, w2: string, b: string)
    requires w1 != [] && w2 != [] && AllSpace(w1) && AllSpace(w2)
    requires a != [] && IsSpace(a[0]) && !AllSpace(a)
    ensures Collapse(a + w1 + b) == Collapse(a + w2 + b)
    decreases |a|, 0
  {
    var s1, s2 := a + w1 + b, a + w2 + b;
    var d := DropSpaces(a);
    AppendAssoc(a, w1, b);
    AppendAssoc(a, w2, b);
    AppendAssoc(d, w1, b);
    AppendAssoc(d, w2, b);
    DropSpacesKeep(a, w1 + b);
    DropSpacesKeep(a, w2 + b);
    assert Collapse(s1) == [' '] + Collapse(d + w1 + b);
    assert Collapse(s2) == [' '] + Collapse(d + w2 + b);
    CollapseRun(d, w1, w2, b);
  }

  /** Position of the first `c` in `s`, or |s|. */
  function Find(s: string, c: char): (i: nat)
    ensures i <= |s|
    ensures c !in s[..i]
    ensures i < |s| ==> s[i] == c
  {
    if s == [] then 0
    else if s[0] == c then 0
    else
      var i := 1 + Find(s[1..], c);
      assert s[..i] == [s[0]] + s[1..][..i - 1];
      i
  }

  /** The first `c` is found where it first occurs. */
  lemma {:induction false} FindAt(s: string, c: char, k: nat)
    requires k < |s| && s[k] == c && c !in s[..k]
    ensures Find(s, c) == k
  {
    if k > 0 {
      assert s[..k][0] == s[0];
      assert s[1..][..k - 1] == s[..k][1..];
      FindAt(s[1..], c, k - 1);
    }
  }

  /** `explode($sep, $s)`. */
  function Split(s: string, sep: char): (parts: seq<string>)
    ensures |parts| >= 1
    ensures forall i :: 0 <= i < |parts| ==> sep !in parts[i]
    decreases |s|
  {
    var i := Find(s, sep);
    if i == |s| then
      TakeAll(s);
      [s]
    else [s[..i]] + Split(s[i + 1..], sep)
  }

  /** `implode($sep, $parts)`. */
  function Join(parts: seq<string>, sep: char): string {
    if parts == [] then []
    else if |parts| == 1 then parts[0]
    else parts[0] + [sep] + Join(parts[1..], sep)
  }

  /** `substr_count($s, $c)` for a one-character needle. */
  function CountChar(s: string, c: char): nat {
    if s == [] then 0
    else (if s[0] == c then 1 else 0) + CountChar(s[1..], c)
  }

  /** `explode` splits at every separator: one more part than separators. */
  lemma {:induction false} SplitCount(s: string, sep: char)
    ensures |Split(s, sep)| == CountChar(s, sep) + 1
    decreases |s|
  {
    var i := Find(s, sep);
    CountNone(s[..i], sep);
    if i < |s| {
      SplitCount(s[i + 1..], sep);
      assert s == s[..i] + [sep] + s[i + 1..];
      CountAppend(s[..i] + [sep], s[i + 1..], sep);
      CountAppend(s[..i], [sep], sep);
    } else {
      TakeAll(s);
    }
  }

  lemma {:induction false} CountNone(s: string, c: char)
    requires c !in s
    ensures CountChar(s, c) == 0
  {
    if s != [] {
      CountNone(s[1..], c);
    }
  }

  lemma {:induction false} CountAppend(a: string, b: string, c: char)
    ensures CountChar(a + b, c) == CountChar(a, c) + CountChar(b, c)
  {
    if a == [] {
      assert a + b == b;
    } else {
      assert (a + b)[1..] == a[1..] + b;
      CountAppend(a[1..], b, c);
    }
  }

  /** `implode` then `explode` gives back the parts when no part contains the separator. */
  lemma {:induction false} SplitJoin(parts: seq<string>, sep: char)
    requires |parts| >= 1
    requires forall i :: 0 <= i < |parts| ==> sep !in parts[i]
    ensures Split(Join(parts, sep), sep) == parts
    decreases |parts|
  {
    var p := parts[0];
    if |parts| == 1 {
      assert Find(p, sep) == |p|;
    } else {
      var s := Join(parts, sep);
      assert s == p + [sep] + Join(parts[1..], sep);
      assert s[..|p|] == p && s[|p|] == sep;
      FindAt(s, sep, |p|);
      assert s[..|p|] == p;
      assert s[|p| + 1..] == Join(parts[1..], sep);
      SplitJoin(parts[1..], sep);
    }
  }

  /** `explode` then `implode` is the identity. */
  lemma {:induction false} JoinSplit(s: string, sep: char)
    ensures Join(Split(s, sep), sep) == s
    decreases |s|
  {
    var i := Find(s, sep);
    if i < |s| {
      var rest := Split(s[i + 1..], sep);
      JoinSplit(s[i + 1..], sep);
      assert Split(s, sep) == [s[..i]] + rest;
      assert ([s[..i]] + rest)[1..] == rest;
      assert Join(Split(s, sep), sep) == s[..i] + [sep] + Join(rest, sep);
      assert s == s[..i] + [sep] + s[i + 1..];
    } else {
      TakeAll(s);
    }
  }

  /** Drops leading separators, as `strtok` does before its first token. */
  function DropLeading(s: string, sep: char): (r: string)
    ensures r == [] || r[0] != sep
    decreases |s|
  {
    if s != [] && s[0] == sep then DropLeading(s[1..], sep) else s
  }

  /** `strtok($s, $sep)` on its first call: the first token, "" when there is none. */
  function FirstToken(s: string, sep: char): string {
    Split(DropLeading(s, sep), sep)[0]
  }

  function DigitValue(c: char): nat
    requires IsDigit(c)
  {
    c as int - '0' as int
  }

  /** What is left of `s` after its leading digits. */
  function SkipDigits(s: string): (r: string)
    ensures |r| <= |s|
  {
    if s != [] && IsDigit(s[0]) then SkipDigits(s[1..]) else s
  }

  /** `acc` followed by the leading digits of `s`, read as a decimal number. */
  function IntValue(s: string, acc: nat): nat {
    if s != [] && IsDigit(s[0]) then IntValue(s[1..], acc * 10 + DigitValue(s[0])) else acc
  }

  /** The leading digits of `s` read as decimals after the point, the first one worth `unit`. */
  function FracValue(s: string, unit: real): (v: real)
    requires unit > 0.0
    ensures v >= 0.0
  {
    if s != [] && IsDigit(s[0]) then DigitValue(s[0]) as real * unit + FracValue(s[1..], unit / 10.0) else 0.0
  }

  /** The value of the longest prefix of `s` of the form `digits [. digits]`. */
  function DecimalValue(s: string): (v: real)
    ensures v >= 0.0
  {
    var rest := SkipDigits(s);
    IntValue(s, 0) as real + if rest != [] && rest[0] == '.' then FracValue(rest[1..], 0.1) else 0.0
  }

  /** The whitespace `strtod` skips before a number. */
  predicate IsNumberSpace(c: char) {
    c == ' ' || c == '\t' || c == '\n' || c == '\r' || c == '\U{000B}' || c == '\U{000C}'
  }

  function DropNumberSpace(s: string): string {
    if s != [] && IsNumberSpace(s[0]) then DropNumberSpace(s[1..]) else s
  }

  /**
   * `floatval($s)`: leading whitespace, an optional sign, then the decimal
   * prefix; 0 when there is no number. Exponents are not modelled.
   */
  function FloatVal(s: string): real {
    var t := DropNumberSpace(s);
    if t != [] && t[0] == '-' then -DecimalValue(t[1..])
    else if t != [] && t[0] == '+' then DecimalValue(t[1..])
    else DecimalValue(t)
  }
}
