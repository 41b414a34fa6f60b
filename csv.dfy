/**
 * The CSV text the copy button builds from the tally:
 * `[...barcodeCount].map(entry => `${entry[0]},${entry[1]}`).join('\n')`.
 * Its partner is a parser that reads the text back into the entries.
 */
module Csv {
  import opened Wrappers

  /** One tally entry: a code and how many times it was accepted. */
  type Entry = (string, nat)

  /** A character `'0'` .. `'9'`. */
  predicate IsDigit(ch: char) {
    '0' <= ch <= '9'
  }

  function DigitChar(d: nat): (ch: char)
    requires d < 10
    ensures IsDigit(ch) && ch as int - '0' as int == d
  {
    ('0' as int + d) as char
  }

  /** The decimal numeral a template literal writes for a non-negative integer. */
  function NatToString(n: nat): (s: string)
    ensures |s| > 0 && forall i :: 0 <= i < |s| ==> IsDigit(s[i])
    ensures |s| > 1 ==> s[0] != '0'
  {
    if n < 10 then [DigitChar(n)] else NatToString(n / 10) + [DigitChar(n % 10)]
  }

  /** The value of a non-empty string of digits, or `None`. */
  function ParseNat(s: string): (r: Option<nat>)
    decreases |s|
  {
    if s == [] || !IsDigit(s[|s| - 1]) then None
    else if |s| == 1 then Some(s[0] as int - '0' as int)
    else match ParseNat(s[..|s| - 1])
      case None => None
      case Some(n) => Some(10 * n + (s[|s| - 1] as int - '0' as int))
  }

  lemma {:induction false} ParseNatToString(n: nat)
    ensures ParseNat(NatToString(n)) == Some(n)
  {
    if n >= 10 {
      var s := NatToString(n);
      ParseNatToString(n / 10);
      assert s[..|s| - 1] == NatToString(n / 10);
    }
  }

  /** `Array.prototype.join`: the lines with `sep` between consecutive ones. */
  function Join(lines: seq<string>, sep: char): (r: string)
    ensures lines == [] ==> r == []
    ensures |lines| > 0 ==> |lines[0]| <= |r| && r[..|lines[0]|] == lines[0]
  {
    if lines == [] then []
    else if |lines| == 1 then lines[0]
    else lines[0] + [sep] + Join(lines[1..], sep)
  }

  /** `String.prototype.split` on one character: the pieces between separators. */
  function Split(s: string, sep: char): (r: seq<string>)
    ensures |r| > 0
  {
    if s == [] then [[]]
    else if s[0] == sep then [[]] + Split(s[1..], sep)
    else
      var rest := Split(s[1..], sep);
      [[s[0]] + rest[0]] + rest[1..]
  }

  /** A piece without the separator stays whole and joins the first piece of what follows. */
  lemma {:induction false} SplitPrefix(a: string, b: string, sep: char)
    requires sep !in a
    ensures Split(a + b, sep) == [a + Split(b, sep)[0]] + Split(b, sep)[1..]
    decreases |a|
  {
    if a == [] {
      var r := Split(b, sep);
      assert a + b == b && a + r[0] == r[0];
      assert r == [r[0]] + r[1..];
    } else {
      assert (a + b)[0] == a[0] != sep;
      assert (a + b)[1..] == a[1..] + b;
      SplitPrefix(a[1..], b, sep);
      var rest := Split(a[1..] + b, sep);
      assert rest[0] == a[1..] + Split(b, sep)[0];
      assert rest[1..] == Split(b, sep)[1..];
      assert [a[0]] + (a[1..] + Split(b, sep)[0]) == a + Split(b, sep)[0];
    }
  }

  /** Splitting undoes joining, when no line holds the separator. */
  lemma {:induction false} SplitJoin(lines: seq<string>, sep: char)
    requires |lines| > 0
    requires forall i :: 0 <= i < |lines| ==> sep !in lines[i]
    ensures Split(Join(lines, sep), sep) == lines
    decreases |lines|
  {
    if |lines| == 1 {
      SplitPrefix(lines[0], [], sep);
      assert lines[0] + [] == lines[0];
      assert Split([], sep) == [[]];
    } else {
      var tail := Join(lines[1..], sep);
      SplitJoin(lines[1..], sep);
      assert lines[0] + [sep] + tail == lines[0] + ([sep] + tail);
      SplitPrefix(lines[0], [sep] + tail, sep);
      assert ([sep] + tail)[1..] == tail;
      assert Split([sep] + tail, sep) == [[]] + Split(tail, sep);
      assert lines[0] + [] == lines[0];
      assert lines == [lines[0]] + lines[1..];
    }
  }

  /** One entry as `code,count`. */
  function CsvLine(e: Entry): string
  {
    e.0 + [','] + NatToString(e.1)
  }

  function CsvLines(entries: seq<Entry>): (lines: seq<string>)
    ensures |lines| == |entries|
    ensures forall i :: 0 <= i < |entries| ==> lines[i] == CsvLine(entries[i])
  {
    if entries == [] then [] else [CsvLine(entries[0])] + CsvLines(entries[1..])
  }

  /**
   * The exported text: one `code,count` line per entry, in the tally's order,
   * joined by newlines.  It is empty exactly when there is no entry, and
   * otherwise starts with the first entry's code and a comma.
   */
  function CsvText(entries: seq<Entry>): (r: string)
    ensures r == [] <==> entries == []
    ensures |entries| > 0 ==> |entries[0].0| < |r| && r[..|entries[0].0| + 1] == entries[0].0 + [',']
  {
    Join(CsvLines(entries), '\n')
  }

  /** The index of the last occurrence of `ch`, if any. */
  function LastIndexOf(s: string, ch: char): (r: Option<nat>)
    ensures r.None? <==> ch !in s
    ensures r.Some? ==> r.value < |s| && s[r.value] == ch && ch !in s[r.value + 1..]
    decreases |s|
  {
    if s == [] then None
    else if s[|s| - 1] == ch then Some(|s| - 1)
    else
      var r := LastIndexOf(s[..|s| - 1], ch);
      assert s == s[..|s| - 1] + [s[|s| - 1]];
      r
  }

  /** The last occurrence is the one with no occurrence after it. */
  lemma LastIndexOfUnique(s: string, ch: char, k: nat)
    requires k < |s| && s[k] == ch && ch !in s[k + 1..]
    ensures LastIndexOf(s, ch) == Some(k)
  {
  }

  /** Reads one line back: the code is everything before the last comma, the count the digits after it. */
  function ParseLine(line: string): Option<Entry>
  {
    match LastIndexOf(line, ',')
    case None => None
    case Some(k) =>
      match ParseNat(line[k + 1..])
      case None => None
      case Some(n) => Some((line[..k], n))
  }

  function ParseLines(lines: seq<string>): Option<seq<Entry>>
  {
    if lines == [] then Some([])
    else match (ParseLine(lines[0]), ParseLines(lines[1..]))
      case (Some(e), Some(es)) => Some([e] + es)
      case _ => None
  }

  /** Reads an exported text back into its entries. */
  function ParseCsv(text: string): Option<seq<Entry>>
  {
    ParseLines(Split(text, '\n'))
  }

  lemma ParseCsvLine(e: Entry)
    ensures ParseLine(CsvLine(e)) == Some(e)
  {
    var line := CsvLine(e);
    var digits := NatToString(e.1);
    assert ',' !in digits by {
      forall i | 0 <= i < |digits| ensures digits[i] != ',' {
        assert IsDigit(digits[i]);
      }
    }
    assert line == e.0 + [','] + digits;
    assert line[|e.0| + 1..] == digits;
    assert line[..|e.0|] == e.0;
    LastIndexOfUnique(line, ',', |e.0|);
    ParseNatToString(e.1);
  }

  lemma {:induction false} ParseCsvLines(entries: seq<Entry>)
    ensures ParseLines(CsvLines(entries)) == Some(entries)
    decreases |entries|
  {
    if entries != [] {
      ParseCsvLine(entries[0]);
      ParseCsvLines(entries[1..]);
      assert CsvLines(entries)[1..] == CsvLines(entries[1..]);
      assert entries == [entries[0]] + entries[1..];
    }
  }

  /** The export is lossless: the text reads back as the entries, in order, when no code holds a newline. */
  lemma CsvRoundTrip(entries: seq<Entry>)
    requires |entries| > 0
    requires forall i :: 0 <= i < |entries| ==> '\n' !in entries[i].0
    ensures ParseCsv(CsvText(entries)) == Some(entries)
  {
    var lines := CsvLines(entries);
    forall i | 0 <= i < |lines| ensures '\n' !in lines[i] {
      var digits := NatToString(entries[i].1);
      assert lines[i] == entries[i].0 + ([','] + digits);
      forall j | 0 <= j < |digits| ensures digits[j] != '\n' {
        assert IsDigit(digits[j]);
      }
    }
    SplitJoin(lines, '\n');
    ParseCsvLines(entries);
  }

  /** Each entry's line is the code, a comma and the count's decimal digits; there is one line per entry. */
  lemma CsvTextLines(entries: seq<Entry>, i: nat)
    requires i < |entries|
    requires forall j :: 0 <= j < |entries| ==> '\n' !in entries[j].0
    ensures |Split(CsvText(entries), '\n')| == |entries|
    ensures Split(CsvText(entries), '\n')[i] == entries[i].0 + "," + NatToString(entries[i].1)
  {
    var lines := CsvLines(entries);
    forall k | 0 <= k < |lines| ensures '\n' !in lines[k] {
      var digits := NatToString(entries[k].1);
      assert lines[k] == entries[k].0 + ([','] + digits);
      forall j | 0 <= j < |digits| ensures digits[j] != '\n' {
        assert IsDigit(digits[j]);
      }
    }
    SplitJoin(lines, '\n');
  }

  /** Recording A, B, A exports as `A,2` and `B,1` on two lines. */
  lemma CsvExample()
    ensures CsvText([("A", 2), ("B", 1)]) == "A,2\nB,1"
  {
  }
}
