/**
  parseCsvLine: a quote-aware split of one line at its commas. A double
  quote toggles the "inside quotes" state and is itself dropped; a comma
  outside quotes ends a field; every other character goes into the
  current field.
*/
module CsvLine {

  /** The line with every double quote removed. */
  function StripQuotes(s: string): string
    decreases |s|
  {
    if |s| == 0 then []
    else
      var prev := StripQuotes(s[..|s| - 1]);
      if s[|s| - 1] == '"' then prev else prev + [s[|s| - 1]]
  }

  /** Whether an odd number of double quotes has been seen. */
  predicate InsideQuotes(s: string)
    decreases |s|
  {
    if |s| == 0 then false
    else if s[|s| - 1] == '"' then !InsideQuotes(s[..|s| - 1])
    else InsideQuotes(s[..|s| - 1])
  }

  /** The commas that are not between an opening and a closing quote. */
  function UnquotedCommas(s: string): nat
    decreases |s|
  {
    if |s| == 0 then 0
    else
      var init := s[..|s| - 1];
      UnquotedCommas(init) + if s[|s| - 1] == ',' && !InsideQuotes(init) then 1 else 0
  }

  /** The fields joined back with commas (String.join(",", fields)). */
  function Join(fields: seq<string>): string
    requires |fields| >= 1
    decreases |fields|
  {
    if |fields| == 1 then fields[0]
    else Join(fields[..|fields| - 1]) + "," + fields[|fields| - 1]
  }

  /** Appending a character to the last field appends it to the joined line. */
  lemma JoinExtendLast(fields: seq<string>, sb: string, c: char)
    ensures Join(fields + [sb + [c]]) == Join(fields + [sb]) + [c]
  {
  }

  /** Starting a new, empty field appends a comma to the joined line. */
  lemma JoinNewField(fields: seq<string>)
    requires |fields| >= 1
    ensures Join(fields + [[]]) == Join(fields) + ","
  {
  }

  /** A comma at position i that ends a field: it is not between quotes. */
  predicate EndsField(line: string, i: int)
    requires 0 <= i < |line|
  {
    line[i] == ',' && !InsideQuotes(line[..i])
  }

  /**
    The fields break at every comma outside quotes among the first n
    characters: the fields before the k-th such comma join to the text
    before it, quotes removed.
  */
  ghost predicate BreaksAt(fields: seq<string>, line: string, n: int)
    requires 0 <= n <= |line|
  {
    forall i :: 0 <= i < n && EndsField(line, i) ==>
      UnquotedCommas(line[..i]) < |fields| &&
      Join(fields[..UnquotedCommas(line[..i]) + 1]) == StripQuotes(line[..i])
  }

  /** Appending a field keeps the breaks already placed. */
  lemma BreaksAtExtend(fields: seq<string>, f: string, line: string, n: int)
    requires 0 <= n <= |line| && BreaksAt(fields, line, n)
    ensures BreaksAt(fields + [f], line, n)
  {
    forall i | 0 <= i < n && EndsField(line, i)
      ensures (fields + [f])[..UnquotedCommas(line[..i]) + 1] == fields[..UnquotedCommas(line[..i]) + 1]
    {
    }
  }

  /** A character that is not a comma outside quotes places no break. */
  lemma BreaksAtSkip(fields: seq<string>, line: string, n: int)
    requires 0 <= n < |line| && !EndsField(line, n) && BreaksAt(fields, line, n)
    ensures BreaksAt(fields, line, n + 1)
  {
  }

  /** Closing the current field at the comma at n places the break there. */
  lemma BreaksAtComma(result: seq<string>, sb: string, line: string, n: int)
    requires 0 <= n < |line| && EndsField(line, n) && BreaksAt(result, line, n)
    requires |result| == UnquotedCommas(line[..n]) && Join(result + [sb]) == StripQuotes(line[..n])
    ensures BreaksAt(result + [sb], line, n + 1)
  {
    BreaksAtExtend(result, sb, line, n);
    assert (result + [sb])[..|result| + 1] == result + [sb];
  }

  /**
    parseCsvLine(line): one field more than there are commas outside
    quotes, no field holds a double quote, and joining the fields with
    commas gives back the line without its double quotes. The fields
    break exactly at the commas outside quotes (BreaksAt).
  */
  method ParseCsvLine(line: string) returns (fields: seq<string>)
    ensures |fields| == UnquotedCommas(line) + 1
    ensures forall f :: f in fields ==> '"' !in f
    ensures Join(fields) == StripQuotes(line)
    ensures BreaksAt(fields, line, |line|)
  {
    var result: seq<string> := [];
    var sb: string := [];
    var inQuotes := false;
    for i := 0 to |line|
      invariant inQuotes == InsideQuotes(line[..i])
      invariant |result| == UnquotedCommas(line[..i])
      invariant forall f :: f in result ==> '"' !in f
      invariant '"' !in sb
      invariant Join(result + [sb]) == StripQuotes(line[..i])
      invariant BreaksAt(result, line, i)
    {
      var c := line[i];
      var pre := line[..i + 1];
      assert pre[..|pre| - 1] == line[..i] && pre[|pre| - 1] == c;
      if c == '"' {
        BreaksAtSkip(result, line, i);
        inQuotes := !inQuotes;
      } else if c == ',' && !inQuotes {
        JoinNewField(result + [sb]);
        BreaksAtComma(result, sb, line, i);
        result := result + [sb];
        sb := [];
      } else {
        BreaksAtSkip(result, line, i);
        JoinExtendLast(result, sb, c);
        sb := sb + [c];
      }
    }
    assert line[..|line|] == line;
    BreaksAtExtend(result, sb, line, |line|);
    fields := result + [sb];
  }
}
