/** The catalog: a fixed table of financial-education snippets, one row per
    entry, read once at start-up. A row's position in the table is its index. */
module Catalog {

  datatype Row = Row(title: string, category: string, content: string)

  /** The text that is embedded for a row: its title, one space, its content. */
  function IndexedText(row: Row): (text: string)
    ensures |text| == |row.title| + 1 + |row.content|
    ensures text[..|row.title|] == row.title
    ensures text[|row.title|] == ' '
    ensures text[|row.title| + 1..] == row.content
  {
    row.title + " " + row.content
  }

  /** Splits a string at its first space: the part before it and the part after
      it (the whole string and nothing when there is no space). */
  function SplitAtFirstSpace(s: string): (string, string) {
    if s == [] then ([], [])
    else if s[0] == ' ' then ([], s[1..])
    else
      var (head, tail) := SplitAtFirstSpace(s[1..]);
      ([s[0]] + head, tail)
  }

  /** For a one-word title, the first space of the indexed text is the
      separator: splitting there gives title and content back. The program
      itself never splits the text; this checks the layout of the
      concatenation. */
  lemma {:induction false} IndexedTextSplits(row: Row)
    requires ' ' !in row.title
    ensures SplitAtFirstSpace(IndexedText(row)) == (row.title, row.content)
  {
    SplitAfterTitle(row.title, row.content);
  }

  lemma {:induction false} SplitAfterTitle(title: string, rest: string)
    requires ' ' !in title
    ensures SplitAtFirstSpace(title + " " + rest) == (title, rest)
  {
    var s := title + " " + rest;
    if title == [] {
      assert s == [' '] + rest;
    } else {
      SplitAfterTitle(title[1..], rest);
      assert s[1..] == title[1..] + " " + rest;
      assert [title[0]] + title[1..] == title;
    }
  }
}
