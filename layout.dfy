/** The text layout of a rendered matrix, over entries that are already text:
    one line per row, entries separated by a single space, no space after
    the last entry, and a line break after every row. */
module Layout {

  /** What the output loop has written for the first `j` entries of a row:
      each entry, followed by a space unless it is the row's last. */
  function LinePrefix(cells: seq<string>, j: nat): (s: string)
    requires j <= |cells|
  {
    if j == 0 then ""
    else LinePrefix(cells, j - 1) + cells[j - 1] + (if j == |cells| then "" else " ")
  }

  /** One whole row as the output loop writes it, without its line break. */
  function Line(cells: seq<string>): (s: string)
  {
    LinePrefix(cells, |cells|)
  }

  /** The first rows of a rendering: each row's line followed by a line break. */
  function Text(rows: seq<seq<string>>): (s: string)
  {
    if |rows| == 0 then "" else Text(rows[..|rows| - 1]) + Line(rows[|rows| - 1]) + "\n"
  }

  /** The usual join of words with a single space between neighbours. */
  function Join(words: seq<string>): (s: string)
  {
    if |words| == 0 then ""
    else if |words| == 1 then words[0]
    else words[0] + " " + Join(words[1..])
  }

  /** Number of occurrences of `ch` in `s`. */
  function Occurrences(s: string, ch: char): (n: nat)
  {
    if |s| == 0 then 0 else (if s[0] == ch then 1 else 0) + Occurrences(s[1..], ch)
  }

  lemma {:induction false} JoinSnoc(words: seq<string>, w: string)
    requires |words| > 0
    ensures Join(words + [w]) == Join(words) + " " + w
  {
    if |words| > 1 {
      assert (words + [w])[1..] == words[1..] + [w];
      JoinSnoc(words[1..], w);
    } else {
      assert words + [w] == [words[0], w];
    }
  }

  lemma {:induction false} LinePrefixIsJoin(cells: seq<string>, j: nat)
    requires 0 < j < |cells|
    ensures LinePrefix(cells, j) == Join(cells[..j]) + " "
  {
    if j > 1 {
      LinePrefixIsJoin(cells, j - 1);
      assert cells[..j] == cells[..j - 1] + [cells[j - 1]];
      JoinSnoc(cells[..j - 1], cells[j - 1]);
    } else {
      assert cells[..1] == [cells[0]];
    }
  }

  /** A row is written as its entries joined by single spaces: no leading or
      trailing space, and nothing at all for a row without entries. */
  lemma LineIsJoin(cells: seq<string>)
    ensures Line(cells) == Join(cells)
  {
    var n := |cells|;
    if n > 1 {
      LinePrefixIsJoin(cells, n - 1);
      assert cells == cells[..n - 1] + [cells[n - 1]];
      JoinSnoc(cells[..n - 1], cells[n - 1]);
    } else if n == 1 {
      assert LinePrefix(cells, 0) == "";
    }
  }

  lemma {:induction false} OccurrencesOfConcat(s: string, t: string, ch: char)
    ensures Occurrences(s + t, ch) == Occurrences(s, ch) + Occurrences(t, ch)
  {
    if |s| > 0 {
      assert (s + t)[1..] == s[1..] + t;
      OccurrencesOfConcat(s[1..], t, ch);
    } else {
      assert s + t == t;
    }
  }

  lemma {:induction false} OccurrencesOfAbsent(s: string, ch: char)
    requires ch !in s
    ensures Occurrences(s, ch) == 0
  {
    if |s| > 0 {
      assert s == [s[0]] + s[1..];
      OccurrencesOfAbsent(s[1..], ch);
    }
  }

  lemma {:induction false} LinePrefixHasNo(cells: seq<string>, j: nat, ch: char)
    requires j <= |cells| && ch != ' '
    requires forall k :: 0 <= k < |cells| ==> ch !in cells[k]
    ensures Occurrences(LinePrefix(cells, j), ch) == 0
  {
    if j > 0 {
      LinePrefixHasNo(cells, j - 1, ch);
      var sep := if j == |cells| then "" else " ";
      OccurrencesOfAbsent(cells[j - 1], ch);
      OccurrencesOfAbsent(sep, ch);
      OccurrencesOfConcat(LinePrefix(cells, j - 1), cells[j - 1], ch);
      OccurrencesOfConcat(LinePrefix(cells, j - 1) + cells[j - 1], sep, ch);
    }
  }

  /** When no entry contains a line break, the rendering has exactly one
      line break per row; in particular no rows render as empty text. */
  lemma {:induction false} OneLineBreakPerRow(rows: seq<seq<string>>)
    requires forall i, k :: 0 <= i < |rows| && 0 <= k < |rows[i]| ==> '\n' !in rows[i][k]
    ensures Occurrences(Text(rows), '\n') == |rows|
    ensures |rows| == 0 ==> Text(rows) == ""
  {
    if |rows| > 0 {
      var init, last := rows[..|rows| - 1], rows[|rows| - 1];
      OneLineBreakPerRow(init);
      LinePrefixHasNo(last, |last|, '\n');
      OccurrencesOfConcat(Text(init), Line(last), '\n');
      OccurrencesOfConcat(Text(init) + Line(last), "\n", '\n');
    }
  }

  /** [[1, 2], [3, 4]] renders as the two lines "1 2" and "3 4". */
  lemma TextExample()
    ensures Text([["1", "2"], ["3", "4"]]) == "1 2\n3 4\n"
  {
    var rows := [["1", "2"], ["3", "4"]];
    assert rows[..1] == [["1", "2"]];
    assert LinePrefix(["1", "2"], 1) == "1 ";
    assert Line(["1", "2"]) == "1 2";
    assert LinePrefix(["3", "4"], 1) == "3 ";
    assert Line(["3", "4"]) == "3 4";
    assert Text(rows[..1]) == "1 2\n";
  }
}
