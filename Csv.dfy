/**
 * `parseCSVLine` of scripts/seed-data.js: a left-to-right scanner that flips an
 * in-quotes flag on every `"`, ends a field at every comma outside quotes, drops
 * the quote characters and trims each field.
 */
module Csv {
  import opened Text

  /** The untrimmed fields of a line: the first one, and the ones after it. */
  datatype Split = Split(head: string, tail: seq<string>)

  /**
   * The untrimmed fields of `s` for a scanner that starts inside quotes exactly
   * when `inQuotes` holds, defined by recursion on the rest of the line: a
   * reference definition that does not mention the scanner's accumulators.
   */
  function RawFields(s: string, inQuotes: bool): Split
  {
    if s == [] then Split([], [])
    else if s[0] == '"' then RawFields(s[1..], !inQuotes)
    else
      var g := RawFields(s[1..], inQuotes);
      if s[0] == ',' && !inQuotes then Split([], [g.head] + g.tail)
      else Split([s[0]] + g.head, g.tail)
  }

  /** The number of commas of `s` that lie outside quotes. */
  function UnquotedCommas(s: string, inQuotes: bool): nat
  {
    if s == [] then 0
    else if s[0] == '"' then UnquotedCommas(s[1..], !inQuotes)
    else if s[0] == ',' && !inQuotes then 1 + UnquotedCommas(s[1..], inQuotes)
    else UnquotedCommas(s[1..], inQuotes)
  }

  /** Trims every field. */
  function TrimAll(fs: seq<string>): seq<string>
  {
    seq(|fs|, i requires 0 <= i < |fs| => Trim(fs[i]))
  }

  /** The fields `parseCSVLine(line)` returns. */
  function Fields(line: string): seq<string>
  {
    var f := RawFields(line, false);
    TrimAll([f.head] + f.tail)
  }

  lemma {:induction false} RawFieldsCount(s: string, inQuotes: bool)
    ensures |RawFields(s, inQuotes).tail| == UnquotedCommas(s, inQuotes)
  {
    if s != [] {
      if s[0] == '"' {
        RawFieldsCount(s[1..], !inQuotes);
      } else {
        RawFieldsCount(s[1..], inQuotes);
      }
    }
  }

  /** No raw field contains a quote character. */
  ghost predicate QuoteFree(f: Split) {
    '"' !in f.head && forall i :: 0 <= i < |f.tail| ==> '"' !in f.tail[i]
  }

  lemma {:induction false} RawFieldsHaveNoQuotes(s: string, inQuotes: bool)
    ensures QuoteFree(RawFields(s, inQuotes))
  {
    if s != [] {
      if s[0] == '"' {
        RawFieldsHaveNoQuotes(s[1..], !inQuotes);
      } else {
        RawFieldsHaveNoQuotes(s[1..], inQuotes);
        var g := RawFields(s[1..], inQuotes);
        if s[0] == ',' && !inQuotes {
          var t := [g.head] + g.tail;
          forall i | 0 <= i < |t| ensures '"' !in t[i] {
            if i > 0 { assert t[i] == g.tail[i - 1]; }
          }
        }
      }
    }
  }

  /** A piece of a string without `"` has none either. */
  lemma TrimKeepsNoQuote(s: string)
    requires '"' !in s
    ensures '"' !in Trim(s)
  {
    TrimIsPiece(s);
    var k :| WhitespaceAround(s, k, Trim(s));
  }

  /**
   * What the source promises of `parseCSVLine`: one field more than there are
   * commas outside quotes, no field contains a quote, every field is trimmed.
   */
  lemma FieldsProperties(line: string)
    ensures |Fields(line)| == 1 + UnquotedCommas(line, false)
    ensures forall i :: 0 <= i < |Fields(line)| ==> '"' !in Fields(line)[i] && IsTrimmed(Fields(line)[i])
  {
    RawFieldsCount(line, false);
    RawFieldsHaveNoQuotes(line, false);
    var f := RawFields(line, false);
    var raw := [f.head] + f.tail;
    forall i | 0 <= i < |raw| ensures '"' !in Fields(line)[i] {
      if i > 0 { assert raw[i] == f.tail[i - 1]; }
      TrimKeepsNoQuote(raw[i]);
    }
  }

  /** The answer once the current field has been extended by the rest of the line. */
  function Completed(result: seq<string>, current: string, rest: Split): seq<string>
  {
    result + [Trim(current + rest.head)] + TrimAll(rest.tail)
  }

  /**
   * The scanner's state after reading `line[..i]`: the fields already pushed,
   * followed by the current field extended by what the rest of the line adds,
   * give the whole answer.
   */
  ghost predicate Scanned(line: string, i: nat, result: seq<string>, current: string, inQuotes: bool)
    requires i <= |line|
  {
    Fields(line) == Completed(result, current, RawFields(line[i..], inQuotes))
  }

  lemma TrimAllCons(x: string, xs: seq<string>)
    ensures TrimAll([x] + xs) == [Trim(x)] + TrimAll(xs)
  {
  }

  lemma QuoteStep(line: string, i: nat, result: seq<string>, current: string, inQuotes: bool)
    requires i < |line| && line[i] == '"'
    requires Scanned(line, i, result, current, inQuotes)
    ensures Scanned(line, i + 1, result, current, !inQuotes)
  {
    var t := line[i..];
    assert t[0] == '"' && t[1..] == line[i + 1..];
    assert RawFields(t, inQuotes) == RawFields(line[i + 1..], !inQuotes);
  }

  lemma CommaStep(line: string, i: nat, result: seq<string>, current: string, inQuotes: bool)
    requires i < |line| && line[i] == ',' && !inQuotes
    requires Scanned(line, i, result, current, inQuotes)
    ensures Scanned(line, i + 1, result + [Trim(current)], [], inQuotes)
  {
    var t := line[i..];
    assert t[0] == ',' && t[1..] == line[i + 1..];
    var g := RawFields(line[i + 1..], inQuotes);
    assert RawFields(t, inQuotes) == Split([], [g.head] + g.tail);
    assert current + [] == current;
    assert [] + g.head == g.head;
    TrimAllCons(g.head, g.tail);
  }

  lemma CharStep(line: string, i: nat, result: seq<string>, current: string, inQuotes: bool)
    requires i < |line| && line[i] != '"' && !(line[i] == ',' && !inQuotes)
    requires Scanned(line, i, result, current, inQuotes)
    ensures Scanned(line, i + 1, result, current + [line[i]], inQuotes)
  {
    var t := line[i..];
    assert t[0] == line[i] && t[1..] == line[i + 1..];
    var g := RawFields(line[i + 1..], inQuotes);
    assert RawFields(t, inQuotes) == Split([line[i]] + g.head, g.tail);
    assert current + ([line[i]] + g.head) == (current + [line[i]]) + g.head;
  }

  lemma StartOfLine(line: string)
    ensures Scanned(line, 0, [], [], false)
  {
    assert line[0..] == line;
    var f := RawFields(line, false);
    assert [] + f.head == f.head;
    TrimAllCons(f.head, f.tail);
    var done: seq<string> := [];
    assert Completed(done, [], f) == done + [Trim(f.head)] + TrimAll(f.tail);
    assert done + [Trim(f.head)] + TrimAll(f.tail) == [Trim(f.head)] + TrimAll(f.tail);
  }

  lemma EndOfLine(line: string, result: seq<string>, current: string, inQuotes: bool)
    requires Scanned(line, |line|, result, current, inQuotes)
    ensures Fields(line) == result + [Trim(current)]
  {
    var t := line[|line|..];
    assert t == [];
    assert RawFields(t, inQuotes) == Split([], []);
    assert current + [] == current;
  }

  /** The JavaScript loop of `parseCSVLine`, over the accumulators `result`, `current` and `inQuotes`. */
  method ParseCsvLine(line: string) returns (result: seq<string>)
    ensures result == Fields(line)
    ensures |result| == 1 + UnquotedCommas(line, false)
    ensures forall i :: 0 <= i < |result| ==> '"' !in result[i] && IsTrimmed(result[i])
  {
    result := [];
    var current: string := [];
    var inQuotes := false;
    StartOfLine(line);
    for i := 0 to |line|
      invariant Scanned(line, i, result, current, inQuotes)
    {
      var c := line[i];
      if c == '"' {
        QuoteStep(line, i, result, current, inQuotes);
        inQuotes := !inQuotes;
      } else if c == ',' && !inQuotes {
        CommaStep(line, i, result, current, inQuotes);
        result := result + [Trim(current)];
        current := [];
      } else {
        CharStep(line, i, result, current, inQuotes);
        current := current + [c];
      }
    }
    EndOfLine(line, result, current, inQuotes);
    result := result + [Trim(current)];
    FieldsProperties(line);
  }
}
