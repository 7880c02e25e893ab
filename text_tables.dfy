/** The text fallbacks of the bank-reference import (`PayrollImportService.parseNonStandardExcel`
    and `cleanTagBytes`). A file that the spreadsheet library cannot open is read as text and
    tried, in turn, as an XML spreadsheet, as an HTML table and as a tab- or comma-delimited
    listing; the first reading that yields any row wins. The two tag readings are regular
    expression scans: what they match is given by `Scanners`, and the model starts from the
    matched pieces. */
module TextTables {
  import opened Wrappers
  import Text

  // ---------------------------------------------------------------------------
  // Tags and entities
  // ---------------------------------------------------------------------------

  /** A match of `<[^>]+>` starts here: a '<', at least one code unit other than '>', a '>'. */
  predicate TagAt(s: string) {
    |s| >= 3 && s[0] == '<' && s[1] != '>' && '>' in s[2..]
  }

  /** The position of the first `c` in `s`. */
  function IndexOf(s: string, c: char): (r: nat)
    requires c in s
    ensures r < |s| && s[r] == c && c !in s[..r]
  {
    if s[0] == c then 0
    else
      assert s == [s[0]] + s[1..];
      var k := IndexOf(s[1..], c);
      assert s[..k + 1] == [s[0]] + s[1..][..k];
      k + 1
  }

  /** Where the tag starting at the front of `s` ends: just after its first '>'. */
  function TagEnd(s: string): (r: nat)
    requires TagAt(s)
    ensures 3 <= r <= |s| && s[r - 1] == '>'
  {
    3 + IndexOf(s[2..], '>')
  }

  /** `s.replaceAll("<[^>]+>", "")`: tags are removed from left to right, the search resuming
      just after each removed tag. */
  function StripTags(s: string): (r: string)
    ensures |r| <= |s|
    decreases |s|
  {
    if s == [] then []
    else if TagAt(s) then StripTags(s[TagEnd(s)..])
    else [s[0]] + StripTags(s[1..])
  }

  /** Stripping only removes: whatever is left was in the text. */
  lemma {:induction false} StripTagsWithin(s: string, c: char)
    requires c !in s
    ensures c !in StripTags(s)
    decreases |s|
  {
    if s != [] {
      if TagAt(s) {
        assert c !in s[TagEnd(s)..];
        StripTagsWithin(s[TagEnd(s)..], c);
      } else {
        assert c !in s[1..];
        StripTagsWithin(s[1..], c);
      }
    }
  }

  /** No match of `<[^>]+>` starts anywhere in `s`. */
  predicate TagFree(s: string)
    decreases |s|
  {
    s == [] || (!TagAt(s) && TagFree(s[1..]))
  }

  /** What is left after stripping holds no tag: removing a tag never joins a '<' before it with
      a '>' after it into a new one. */
  lemma {:induction false} StripTagsLeavesNoTag(s: string)
    ensures TagFree(StripTags(s))
    decreases |s|
  {
    if s != [] {
      if TagAt(s) {
        StripTagsLeavesNoTag(s[TagEnd(s)..]);
      } else {
        var rest := StripTags(s[1..]);
        var r := [s[0]] + rest;
        StripTagsLeavesNoTag(s[1..]);
        assert r[1..] == rest;
        if s[0] == '<' && |s| >= 2 {
          if s[1] == '>' {
            assert TagAt(s[1..]) == false;
            assert rest == [s[1]] + StripTags(s[2..]) by {
              assert s[1..][1..] == s[2..];
            }
            assert r[1] == '>';
          } else {
            assert '>' !in s[1..] by {
              assert s[1..] == [s[1]] + s[2..];
            }
            StripTagsWithin(s[1..], '>');
            assert r[2..] == rest[1..];
          }
        }
      }
    }
  }

  /** A string with no tag is left as it is. */
  lemma {:induction false} TagFreeUnchanged(s: string)
    requires TagFree(s)
    ensures StripTags(s) == s
    decreases |s|
  {
    if s != [] {
      TagFreeUnchanged(s[1..]);
      assert s == [s[0]] + s[1..];
    }
  }

  /** Stripping twice strips nothing more. */
  lemma StripTagsIdempotent(s: string)
    ensures StripTags(StripTags(s)) == StripTags(s)
  {
    StripTagsLeavesNoTag(s);
    TagFreeUnchanged(StripTags(s));
  }

  /** Text without a '<' holds no tag. */
  lemma {:induction false} NoAngleNoTag(s: string)
    requires '<' !in s
    ensures StripTags(s) == s
    decreases |s|
  {
    if s != [] {
      NoAngleNoTag(s[1..]);
      assert s == [s[0]] + s[1..];
    }
  }

  /** The entity replacements of `cleanTagBytes`, in its order: `&amp;` is undone after
      `&nbsp;` and before `&lt;`, so `&amp;lt;` ends up as `<`. */
  function Unescaped(t: string): (r: string)
    ensures '&' !in t ==> r == t
  {
    var r := Text.Replace(Text.Replace(Text.Replace(Text.Replace(Text.Replace(Text.Replace(
      t, "&nbsp;", " "), "&amp;", "&"), "&lt;", "<"), "&gt;", ">"), "&#39;", "'"), "&quot;", "\"");
    if '&' in t then r
    else
      MissingFirstUnit(t, "&nbsp;");
      MissingFirstUnit(t, "&amp;");
      MissingFirstUnit(t, "&lt;");
      MissingFirstUnit(t, "&gt;");
      MissingFirstUnit(t, "&#39;");
      MissingFirstUnit(t, "&quot;");
      r
  }

  /** `cleanTagBytes`: null becomes ""; otherwise the tags are removed, the rest trimmed, and the
      common entities replaced. */
  function CleanTagBytes(text: Option<string>): (r: string)
    ensures text.None? ==> r == ""
  {
    if text.None? then "" else Unescaped(Text.Trim(StripTags(text.value)))
  }

  /** A code unit missing from `s` rules out every part that starts with it. */
  lemma {:induction false} MissingFirstUnit(s: string, part: string)
    requires part != [] && part[0] !in s
    ensures !Text.Contains(s, part)
    decreases |s|
  {
    if s != [] {
      assert part[0] !in s[1..];
      MissingFirstUnit(s[1..], part);
    }
  }

  /** The trim of a string is a piece of it. */
  lemma TrimWithin(s: string, c: char)
    requires c !in s
    ensures c !in Text.Trim(s)
  {
    var t := Text.TrimStart(s);
    assert t == s[|s| - |t|..];
    assert c !in t;
    var u := Text.TrimEnd(t);
    assert u == t[..|u|];
  }

  /** Text with no '<' and no '&' is only trimmed. */
  lemma CleanPlainText(t: string)
    requires '<' !in t && '&' !in t
    ensures CleanTagBytes(Some(t)) == Text.Trim(t)
  {
    NoAngleNoTag(t);
    var x := Text.Trim(t);
    TrimWithin(t, '&');
    MissingFirstUnit(x, "&nbsp;");
    MissingFirstUnit(x, "&amp;");
    MissingFirstUnit(x, "&lt;");
    MissingFirstUnit(x, "&gt;");
    MissingFirstUnit(x, "&#39;");
    MissingFirstUnit(x, "&quot;");
  }

  /** A bold cell loses its tags. */
  lemma BoldCell()
    ensures CleanTagBytes(Some("<b>x</b>")) == "x"
  {
    assert StripTags("</b>") == "" by {
      assert TagEnd("</b>") == 4;
    }
    assert StripTags("x</b>") == "x" by {
      assert "x</b>"[1..] == "</b>";
    }
    assert TagEnd("<b>x</b>") == 3;
    assert "<b>x</b>"[3..] == "x</b>";
    Text.TrimOfTrimmed("x");
    CleanPlainText("x");
  }

  /** Text before the first '<' is kept as it is. */
  lemma {:induction false} StripTagsKeepsPlain(x: string, y: string)
    requires '<' !in x
    ensures StripTags(x + y) == x + StripTags(y)
    decreases |x|
  {
    if x != [] {
      var s := x + y;
      assert s[0] == x[0] && s[1..] == x[1..] + y;
      assert x[0] in x && !TagAt(s);
      assert StripTags(s) == [s[0]] + StripTags(s[1..]);
      StripTagsKeepsPlain(x[1..], y);
      assert x == [x[0]] + x[1..];
      assert StripTags(s) == [x[0]] + (x[1..] + StripTags(y));
    } else {
      assert x + y == y;
    }
  }

  /** A tag at the front (a '<', a non-empty inside without '>', a '>') is dropped whole. */
  lemma StripTagsDropsTag(inside: string, y: string)
    requires inside != [] && '>' !in inside
    ensures StripTags("<" + inside + ">" + y) == StripTags(y)
  {
    var s := "<" + inside + ">" + y;
    var n := |inside| + 2;
    assert s[2..] == inside[1..] + ['>'] + y;
    IndexOfFirst(inside[1..], '>', y);
    assert TagEnd(s) == n;
    assert s[n..] == y;
  }

  /** The first `c` is the one after a stretch without `c`. */
  lemma {:induction false} IndexOfFirst(x: string, c: char, y: string)
    requires c !in x
    ensures IndexOf(x + [c] + y, c) == |x|
    decreases |x|
  {
    var s := x + [c] + y;
    if x != [] {
      assert s[0] == x[0] && s[1..] == x[1..] + [c] + y;
      IndexOfFirst(x[1..], c, y);
    }
  }

  /** The '&' that starts an entity between two texts without '&' is the only one. */
  lemma SingleAmp(a: string, e: string, b: string)
    requires '&' !in a && '&' !in b && e != [] && e[0] == '&' && '&' !in e[1..]
    ensures var s := a + e + b; s[|a|] == '&' && forall k :: 0 <= k < |s| && k != |a| ==> s[k] != '&'
  {
    var s := a + e + b;
    forall k | 0 <= k < |s| && k != |a|
      ensures s[k] != '&'
    {
      if k < |a| {
        assert s[k] == a[k];
      } else if k < |a| + |e| {
        assert s[k] == e[1..][k - |a| - 1];
      } else {
        assert s[k] == b[k - |a| - |e|];
      }
    }
  }

  /** In text whose only '&' is at `p`, a part starting with '&' can only occur at `p`. */
  lemma OnlyAmpAt(s: string, p: nat, part: string)
    requires p < |s| && forall k :: 0 <= k < |s| && k != p ==> s[k] != '&'
    requires part != [] && part[0] == '&'
    requires !(p + |part| <= |s| && s[p..p + |part|] == part)
    ensures !Text.Contains(s, part)
  {
    forall i
      ensures !Text.OccursAt(s, part, i)
    {
      if 0 <= i && i + |part| <= |s| && i != p {
        assert s[i..i + |part|][0] == s[i];
      }
    }
    Text.NotContained(s, part);
  }

  /** An entity standing between texts without '&' is not mistaken for another one. */
  lemma OtherEntity(a: string, e: string, b: string, part: string)
    requires '&' !in a && '&' !in b && |e| >= 2 && e[0] == '&' && '&' !in e[1..]
    requires |part| >= 2 && part[0] == '&' && part[1] != e[1]
    ensures !Text.Contains(a + e + b, part)
  {
    var s := a + e + b;
    SingleAmp(a, e, b);
    assert s[|a| + 1] == e[1];
    if |a| + |part| <= |s| {
      assert s[|a|..|a| + |part|][1] == e[1];
    }
    OnlyAmpAt(s, |a|, part);
  }

  /** A lone '&' followed by text without ';' starts none of the entities, which all end in ';'. */
  lemma LoneAmp(a: string, b: string, part: string)
    requires '&' !in a && '&' !in b && ';' !in b
    requires |part| >= 2 && part[0] == '&' && part[|part| - 1] == ';'
    ensures !Text.Contains(a + "&" + b, part)
  {
    var s := a + "&" + b;
    SingleAmp(a, "&", b);
    if |a| + |part| <= |s| {
      assert s[|a|..|a| + |part|][|part| - 1] == b[|part| - 2];
    }
    OnlyAmpAt(s, |a|, part);
  }

  /** Replacing an entity that occurs once, between texts without '&'. */
  lemma EntityOnce(a: string, e: string, b: string, replacement: string)
    requires '&' !in a && '&' !in b && e != [] && e[0] == '&' && '&' !in e[1..]
    ensures Text.Replace(a + e + b, e, replacement) == a + replacement + b
  {
    var early := a + e[..|e| - 1];
    if |e| > 1 {
      assert e[..|e| - 1][1..] == e[1..][..|e| - 2];
      SingleAmp(a, e[..|e| - 1], []);
      assert early + [] == early;
      OnlyAmpAt(early, |a|, e);
    } else {
      assert early == a;
      MissingFirstUnit(a, e);
    }
    Text.ReplaceFirst(a, e, b, replacement);
    MissingFirstUnit(b, e);
  }

  /** `&nbsp;` standing among text without '&' becomes a space. */
  lemma UnescapesNbsp(a: string, b: string)
    requires '&' !in a && '&' !in b
    ensures Unescaped(a + "&nbsp;" + b) == a + " " + b
  {
    EntityOnce(a, "&nbsp;", b, " ");
    AmpFreeUnchanged(a + " " + b);
    MissingFirstUnit(a + " " + b, "&amp;");
    MissingFirstUnit(a + " " + b, "&lt;");
  }

  /** `&amp;` standing among text without '&' becomes '&'; text without ';' after it keeps it
      from being read as the start of a further entity. */
  lemma UnescapesAmp(a: string, b: string)
    requires '&' !in a && '&' !in b && ';' !in b
    ensures Unescaped(a + "&amp;" + b) == a + "&" + b
  {
    OtherEntity(a, "&amp;", b, "&nbsp;");
    EntityOnce(a, "&amp;", b, "&");
    LoneAmp(a, b, "&lt;");
    LoneAmp(a, b, "&gt;");
    LoneAmp(a, b, "&#39;");
    LoneAmp(a, b, "&quot;");
  }

  /** `&lt;` standing among text without '&' becomes '<'. */
  lemma UnescapesLt(a: string, b: string)
    requires '&' !in a && '&' !in b
    ensures Unescaped(a + "&lt;" + b) == a + "<" + b
  {
    OtherEntity(a, "&lt;", b, "&nbsp;");
    OtherEntity(a, "&lt;", b, "&amp;");
    EntityOnce(a, "&lt;", b, "<");
    AmpFreeUnchanged(a + "<" + b);
  }

  /** `&gt;` standing among text without '&' becomes '>'. */
  lemma UnescapesGt(a: string, b: string)
    requires '&' !in a && '&' !in b
    ensures Unescaped(a + "&gt;" + b) == a + ">" + b
  {
    OtherEntity(a, "&gt;", b, "&nbsp;");
    OtherEntity(a, "&gt;", b, "&amp;");
    OtherEntity(a, "&gt;", b, "&lt;");
    EntityOnce(a, "&gt;", b, ">");
    AmpFreeUnchanged(a + ">" + b);
  }

  /** `&#39;` standing among text without '&' becomes an apostrophe. */
  lemma UnescapesApos(a: string, b: string)
    requires '&' !in a && '&' !in b
    ensures Unescaped(a + "&#39;" + b) == a + "'" + b
  {
    OtherEntity(a, "&#39;", b, "&nbsp;");
    OtherEntity(a, "&#39;", b, "&amp;");
    OtherEntity(a, "&#39;", b, "&lt;");
    OtherEntity(a, "&#39;", b, "&gt;");
    EntityOnce(a, "&#39;", b, "'");
    AmpFreeUnchanged(a + "'" + b);
  }

  /** `&quot;` standing among text without '&' becomes a double quote. */
  lemma UnescapesQuot(a: string, b: string)
    requires '&' !in a && '&' !in b
    ensures Unescaped(a + "&quot;" + b) == a + "\"" + b
  {
    OtherEntity(a, "&quot;", b, "&nbsp;");
    OtherEntity(a, "&quot;", b, "&amp;");
    OtherEntity(a, "&quot;", b, "&lt;");
    OtherEntity(a, "&quot;", b, "&gt;");
    OtherEntity(a, "&quot;", b, "&#39;");
    EntityOnce(a, "&quot;", b, "\"");
  }

  /** Text left without '&' is untouched by the remaining replacements. */
  lemma AmpFreeUnchanged(u: string)
    requires '&' !in u
    ensures Text.Replace(u, "&gt;", ">") == u && Text.Replace(u, "&#39;", "'") == u
    ensures Text.Replace(u, "&quot;", "\"") == u
  {
    MissingFirstUnit(u, "&gt;");
    MissingFirstUnit(u, "&#39;");
    MissingFirstUnit(u, "&quot;");
  }

  /** A table cell padded with spaces: the tags go, the spaces are trimmed, the entities are
      replaced. */
  lemma PaddedCell(core: string)
    requires core != [] && !Text.IsTrimmed(core[0]) && !Text.IsTrimmed(core[|core| - 1])
    requires '<' !in core
    ensures CleanTagBytes(Some("<td> " + core + " </td>")) == Unescaped(core)
  {
    var inner := " " + core + " ";
    assert "<td> " + core + " </td>" == "<td>" + inner + "</td>";
    CellTagsStripped(inner);
    Text.TrimPadded(" ", core, " ");
  }

  /** The tags of a table cell go, and the text between them stays. */
  lemma CellTagsStripped(inner: string)
    requires '<' !in inner
    ensures StripTags("<td>" + inner + "</td>") == inner
  {
    assert "<td>" + inner + "</td>" == "<" + "td" + ">" + (inner + "</td>");
    StripTagsDropsTag("td", inner + "</td>");
    StripTagsKeepsPlain(inner, "</td>");
    assert "</td>" == "<" + "/td" + ">" + "";
    StripTagsDropsTag("/td", "");
  }

  /** `&amp;lt;` is undone in two steps, first to `&lt;` and then to '<'. */
  lemma AmpThenLt()
    ensures Unescaped("&amp;lt;") == "<"
  {
    assert "&amp;lt;" == "" + "&amp;" + "lt;";
    OtherEntity("", "&amp;", "lt;", "&nbsp;");
    EntityOnce("", "&amp;", "lt;", "&");
    assert "" + "&" + "lt;" == "" + "&lt;" + "";
    EntityOnce("", "&lt;", "", "<");
    AmpFreeUnchanged("" + "<" + "");
  }

  /** An escaped '<' in a cell: the tags go, the spaces are trimmed, `&amp;` becomes '&', and the
      `&lt;` that this uncovers then becomes '<'. */
  lemma EscapedAngleCell(cell: string)
    requires cell == "<td> &amp;lt; </td>"
    ensures CleanTagBytes(Some(cell)) == "<"
  {
    assert cell == "<td> " + "&amp;lt;" + " </td>";
    PaddedCell("&amp;lt;");
    AmpThenLt();
  }

  // ---------------------------------------------------------------------------
  // The delimited reading
  // ---------------------------------------------------------------------------

  /** The exception the delimited reading can throw: `"\"".substring(1, 0)` is out of bounds. */
  datatype ReadFailure = LoneQuoteCut

  /** One surrounding pair of double quotes is removed. A cell that is a lone '"' both starts
      and ends with a quote, and cutting it throws. */
  function Unquoted(val: string): (r: Result<string, ReadFailure>)
    ensures r.Failure? <==> |val| == 1 && val[0] == '"'
  {
    if Text.StartsWith(val, "\"") && Text.EndsWith(val, "\"") then
      if |val| >= 2 then Success(val[1..|val| - 1]) else Failure(LoneQuoteCut)
    else Success(val)
  }

  /** A value that does not start with a quote is kept as it is. */
  lemma UnquotePlain(val: string)
    requires val == [] || val[0] != '"'
    ensures Unquoted(val) == Success(val)
  {
  }

  /** Quoting a value and unquoting it gives it back. */
  lemma UnquoteQuoted(v: string)
    ensures Unquoted("\"" + v + "\"") == Success(v)
  {
    var q := "\"" + v + "\"";
    assert q[1..|q| - 1] == v;
  }

  /** The columns of a line: split on tabs, or on commas when that gives fewer than two. */
  function Columns(line: string): (r: seq<string>)
    ensures '\t' in line && |Text.JavaSplit(line, '\t')| >= 2 ==> r == Text.JavaSplit(line, '\t')
  {
    var tabs := Text.JavaSplit(line, '\t');
    if |tabs| < 2 then Text.JavaSplit(line, ',') else tabs
  }

  /** A column that trims to a lone double quote. */
  predicate LoneQuote(col: string) {
    var t := Text.Trim(col);
    |t| == 1 && t[0] == '"'
  }

  /** One column's cell: trimmed, then unquoted; it throws exactly on a lone quote. */
  function ReadCell(col: string): (r: Result<string, ReadFailure>)
    ensures r.Failure? <==> LoneQuote(col)
  {
    Unquoted(Text.Trim(col))
  }

  /** The cells of one line's columns, each read by `read` (the delimited reading uses
      `ReadCell`); the first cell that throws ends the line with its exception. */
  function CellsOf(cols: seq<string>, read: string -> Result<string, ReadFailure>): (r: Result<seq<string>, ReadFailure>)
    ensures r.Success? ==> |r.value| == |cols|
  {
    if cols == [] then Success([])
    else
      var prev := CellsOf(cols[..|cols| - 1], read);
      if prev.Failure? then prev
      else
        var v := read(cols[|cols| - 1]);
        if v.Failure? then Failure(v.error) else Success(prev.value + [v.value])
  }

  /** A line's cells are its columns, each read, and the line fails exactly when one column
      fails. */
  lemma {:induction false} CellsOfMeaning(cols: seq<string>, read: string -> Result<string, ReadFailure>)
    ensures var r := CellsOf(cols, read);
      && (r.Success? ==> forall k :: 0 <= k < |cols| ==> read(cols[k]) == Success(r.value[k]))
      && (r.Failure? <==> exists k :: 0 <= k < |cols| && read(cols[k]).Failure?)
  {
    if cols != [] {
      var n := |cols| - 1;
      var prev := CellsOf(cols[..n], read);
      var r := CellsOf(cols, read);
      CellsOfMeaning(cols[..n], read);
      if r.Success? {
        forall k | 0 <= k < |cols| ensures read(cols[k]) == Success(r.value[k]) {
          if k < n {
            assert cols[..n][k] == cols[k];
            assert r.value[k] == prev.value[k];
          }
        }
      }
      if prev.Failure? {
        var k :| 0 <= k < n && read(cols[..n][k]).Failure?;
        assert cols[..n][k] == cols[k];
      } else if !r.Failure? {
        forall k | 0 <= k < |cols| ensures read(cols[k]).Success? {
          if k < n {
            assert cols[..n][k] == cols[k];
          }
        }
      }
    }
  }

  /** The rows of the delimited reading, line by line: blank lines (`line.trim().isEmpty()`,
      stated as every code unit being trimmable, see `Text.TrimEmptyIff`) and lines with no
      column are skipped; the first lone-quote cell ends the reading with its exception. */
  function RowsOfLines(lines: seq<string>): (r: Result<seq<seq<string>>, ReadFailure>)
    ensures r.Success? ==> |r.value| <= |lines| && forall k :: 0 <= k < |r.value| ==> r.value[k] != []
  {
    if lines == [] then Success([])
    else
      var prev := RowsOfLines(lines[..|lines| - 1]);
      var line := lines[|lines| - 1];
      if prev.Failure? || Text.TrimsToEmpty(line) then prev
      else
        var cols := Columns(line);
        if |cols| == 0 then prev
        else
          var cells := CellsOf(cols, ReadCell);
          if cells.Failure? then Failure(cells.error) else Success(prev.value + [cells.value])
  }

  /** The delimited reading: only text of more than one line is read. */
  function DelimitedTable(content: string): (r: Result<seq<seq<string>>, ReadFailure>)
    ensures '\n' !in content ==> r == Success([])
  {
    var lines := Text.JavaSplit(content, '\n');
    if |lines| > 1 then RowsOfLines(lines) else Success([])
  }

  /** A cell that needs no trimming, holds no tab or line break and does not start with a
      quote. */
  predicate PlainCell(cell: string) {
    && cell != []
    && !Text.IsTrimmed(cell[0]) && !Text.IsTrimmed(cell[|cell| - 1])
    && cell[0] != '"'
    && '\t' !in cell && '\n' !in cell
  }

  /** A row of two or more plain cells, joined by tabs, is not blank and splits back into the
      cells. */
  lemma TabLineSplits(row: seq<string>)
    requires |row| >= 2 && forall k :: 0 <= k < |row| ==> PlainCell(row[k])
    ensures !Text.TrimsToEmpty(Text.Join(row, "\t"))
    ensures Columns(Text.Join(row, "\t")) == row
  {
    var line := Text.Join(row, "\t");
    Text.JavaSplitJoin(row, '\t');
    Text.JoinHasSeparator(row, '\t');
    Text.JoinStartsWithFirst(row, "\t");
    assert line[0] == row[0][0];
  }

  /** A plain cell is read as it is. */
  lemma PlainCellRead(cell: string)
    requires PlainCell(cell)
    ensures ReadCell(cell) == Success(cell)
  {
    Text.TrimOfTrimmed(cell);
    UnquotePlain(cell);
  }

  /** Plain cells are read as they are. */
  lemma {:induction false} PlainCellsRead(row: seq<string>)
    requires forall k :: 0 <= k < |row| ==> PlainCell(row[k])
    ensures CellsOf(row, ReadCell) == Success(row)
  {
    if row != [] {
      var n := |row| - 1;
      PlainCellsRead(row[..n]);
      PlainCellRead(row[n]);
      assert CellsOf(row, ReadCell) == Success(row[..n] + [row[n]]);
      LastSplit(row);
    }
  }

  /** A non-empty sequence is its front and its last element. */
  lemma LastSplit<T>(s: seq<T>)
    requires s != []
    ensures s[..|s| - 1] + [s[|s| - 1]] == s
  {
  }

  /** Lines of two or more plain cells, joined by tabs and then by line breaks, read back as the
      rows: the delimited reading inverts writing a tab-separated listing. */
  lemma {:induction false} DelimitedReadsBack(rows: seq<seq<string>>)
    requires |rows| >= 2
    requires forall i :: 0 <= i < |rows| ==> |rows[i]| >= 2 && forall k :: 0 <= k < |rows[i]| ==> PlainCell(rows[i][k])
    ensures DelimitedTable(Text.Join(TabLines(rows), "\n")) == Success(rows)
  {
    var lines := TabLines(rows);
    forall i | 0 <= i < |lines| ensures '\n' !in lines[i] {
      TabLineAt(rows, i);
      Text.JoinAvoids(rows[i], "\t", '\n');
    }
    var last := rows[|rows| - 1];
    TabLineAt(rows, |rows| - 1);
    Text.JoinStartsWithFirst(last, "\t");
    Text.JavaSplitJoin(lines, '\n');
    LinesReadBack(rows);
  }

  /** Each row joined by tabs. */
  function TabLines(rows: seq<seq<string>>): (r: seq<string>)
    ensures |r| == |rows|
  {
    if rows == [] then [] else TabLines(rows[..|rows| - 1]) + [Text.Join(rows[|rows| - 1], "\t")]
  }

  lemma {:induction false} TabLineAt(rows: seq<seq<string>>, i: nat)
    requires i < |rows|
    ensures TabLines(rows)[i] == Text.Join(rows[i], "\t")
  {
    if i < |rows| - 1 {
      TabLineAt(rows[..|rows| - 1], i);
    }
  }

  lemma {:induction false} LinesReadBack(rows: seq<seq<string>>)
    requires forall i :: 0 <= i < |rows| ==> |rows[i]| >= 2 && forall k :: 0 <= k < |rows[i]| ==> PlainCell(rows[i][k])
    ensures RowsOfLines(TabLines(rows)) == Success(rows)
  {
    if rows != [] {
      var n := |rows| - 1;
      var lines := TabLines(rows);
      LinesReadBack(rows[..n]);
      assert lines[..n] == TabLines(rows[..n]);
      TabLineAt(rows, n);
      TabLineSplits(rows[n]);
      PlainCellsRead(rows[n]);
      LineRead(lines, rows[..n], rows[n]);
      LastSplit(rows);
    }
  }

  /** A last line that is not blank and whose columns read as `row` adds `row`. */
  lemma LineRead(lines: seq<string>, prev: seq<seq<string>>, row: seq<string>)
    requires lines != [] && RowsOfLines(lines[..|lines| - 1]) == Success(prev)
    requires !Text.TrimsToEmpty(lines[|lines| - 1]) && Columns(lines[|lines| - 1]) == row
    requires row != [] && CellsOf(row, ReadCell) == Success(row)
    ensures RowsOfLines(lines) == Success(prev + [row])
  {
  }

  // ---------------------------------------------------------------------------
  // The tag readings and the cascade
  // ---------------------------------------------------------------------------

  /** What the regular expressions of the two tag readings match in the text, in order. For the
      XML reading: per `<Row…>…</Row>`, per `<Cell…>…</Cell>` inside it, the content of its first
      `<Data…>…</Data>`, or `None` when it has none. For the HTML reading: per `<tr…>…</tr>`, the
      content of each `<td…>…</td>` or `<th…>…</th>` inside it. */
  datatype Scanners = Scanners(
    xmlRows: string -> seq<seq<Option<string>>>,
    htmlRows: string -> seq<seq<string>>)

  predicate XmlGate(content: string) {
    Text.Contains(content, "<Row") || Text.Contains(content, "<Worksheet")
  }

  predicate HtmlGate(content: string) {
    Text.Contains(content, "<tr") || Text.Contains(content, "<table")
  }

  /** The cells of one XML row: a cell's data as `clean` leaves it, or "" for a cell without
      data. The readings are stated for any cleaner; `parseNonStandardExcel` uses
      `CleanTagBytes`. */
  function XmlCells(cells: seq<Option<string>>, clean: Option<string> -> string): (r: seq<string>)
    ensures |r| == |cells|
    ensures forall k :: 0 <= k < |cells| ==> r[k] == if cells[k].Some? then clean(cells[k]) else ""
  {
    if cells == [] then []
    else
      var last := cells[|cells| - 1];
      XmlCells(cells[..|cells| - 1], clean) + [if last.Some? then clean(last) else ""]
  }

  /** The XML reading: one row per matched row that has a cell. */
  function XmlTable(matches: seq<seq<Option<string>>>, clean: Option<string> -> string): (r: seq<seq<string>>)
    ensures |r| <= |matches| && forall k :: 0 <= k < |r| ==> r[k] != []
    ensures (forall k :: 0 <= k < |matches| ==> matches[k] != []) ==>
      |r| == |matches| && forall k :: 0 <= k < |r| ==> r[k] == XmlCells(matches[k], clean)
  {
    if matches == [] then []
    else
      var prev := XmlTable(matches[..|matches| - 1], clean);
      var row := XmlCells(matches[|matches| - 1], clean);
      if row == [] then prev else prev + [row]
  }

  /** The cells of one HTML row, each cleaned. */
  function HtmlCells(cells: seq<string>, clean: Option<string> -> string): (r: seq<string>)
    ensures |r| == |cells|
    ensures forall k :: 0 <= k < |cells| ==> r[k] == clean(Some(cells[k]))
  {
    if cells == [] then [] else HtmlCells(cells[..|cells| - 1], clean) + [clean(Some(cells[|cells| - 1]))]
  }

  /** The HTML reading: one row per matched row that has a cell. */
  function HtmlTable(matches: seq<seq<string>>, clean: Option<string> -> string): (r: seq<seq<string>>)
    ensures |r| <= |matches| && forall k :: 0 <= k < |r| ==> r[k] != []
    ensures (forall k :: 0 <= k < |matches| ==> matches[k] != []) ==>
      |r| == |matches| && forall k :: 0 <= k < |r| ==> r[k] == HtmlCells(matches[k], clean)
  {
    if matches == [] then []
    else
      var prev := HtmlTable(matches[..|matches| - 1], clean);
      var row := HtmlCells(matches[|matches| - 1], clean);
      if row == [] then prev else prev + [row]
  }

  /** `parseNonStandardExcel`: the XML reading when the text mentions rows or a worksheet and it
      finds a row, else the HTML reading when the text mentions rows or a table and it finds a
      row, else the delimited reading. */
  function NonStandardTable(content: string, scanners: Scanners): (r: Result<seq<seq<string>>, ReadFailure>)
    ensures r.Success? ==> forall k :: 0 <= k < |r.value| ==> r.value[k] != []
  {
    var xml := if XmlGate(content) then XmlTable(scanners.xmlRows(content), CleanTagBytes) else [];
    if xml != [] then Success(xml)
    else
      var html := if HtmlGate(content) then HtmlTable(scanners.htmlRows(content), CleanTagBytes) else [];
      if html != [] then Success(html)
      else DelimitedTable(content)
  }

  /** Text without a '<' passes both tag readings by: it is read as a delimited listing. */
  lemma PlainTextIsDelimited(content: string, scanners: Scanners)
    requires '<' !in content
    ensures NonStandardTable(content, scanners) == DelimitedTable(content)
  {
    MissingFirstUnit(content, "<Row");
    MissingFirstUnit(content, "<Worksheet");
    MissingFirstUnit(content, "<tr");
    MissingFirstUnit(content, "<table");
  }

  /** An XML spreadsheet that yields a row is read as XML whatever else the text holds. */
  lemma XmlFirst(content: string, scanners: Scanners)
    requires Text.Contains(content, "<Worksheet")
    requires exists k :: 0 <= k < |scanners.xmlRows(content)| && scanners.xmlRows(content)[k] != []
    ensures NonStandardTable(content, scanners) == Success(XmlTable(scanners.xmlRows(content), CleanTagBytes))
  {
    var matches := scanners.xmlRows(content);
    var k :| 0 <= k < |matches| && matches[k] != [];
    XmlTableKeeps(matches, CleanTagBytes, k);
  }

  /** A matched row with a cell is kept, so the XML reading is not empty. */
  lemma {:induction false} XmlTableKeeps(matches: seq<seq<Option<string>>>, clean: Option<string> -> string, k: nat)
    requires k < |matches| && matches[k] != []
    ensures XmlTable(matches, clean) != []
  {
    var n := |matches| - 1;
    if k < n {
      XmlTableKeeps(matches[..n], clean, k);
    }
    assert |XmlCells(matches[n], clean)| == |matches[n]|;
  }

  /** A last line that is not blank and whose cells throw ends the reading with the exception. */
  lemma LineFails(lines: seq<string>, failure: ReadFailure)
    requires lines != [] && RowsOfLines(lines[..|lines| - 1]).Success?
    requires !Text.TrimsToEmpty(lines[|lines| - 1]) && |Columns(lines[|lines| - 1])| > 0
    requires CellsOf(Columns(lines[|lines| - 1]), ReadCell) == Failure(failure)
    ensures RowsOfLines(lines) == Failure(failure)
  {
  }

  /** A lone double quote in a column makes the whole reading fail. */
  lemma LoneQuoteFails()
    ensures DelimitedTable("a,\"\nb,c") == Failure(LoneQuoteCut)
  {
    var lines := ["a,\"", "b,c"];
    assert Text.Join(lines, "\n") == "a,\"\nb,c";
    Text.JavaSplitJoin(lines, '\n');
    LoneQuoteLine();
    assert lines[..1] == ["a,\""];
    RowsFailureSticks(lines, 1);
  }

  /** The line `a,"` throws. */
  lemma LoneQuoteLine()
    ensures RowsOfLines(["a,\""]) == Failure(LoneQuoteCut)
  {
    var line := "a,\"";
    LoneQuoteColumns();
    LoneQuoteCells();
    assert [line][..0] == [];
    LineFails([line], LoneQuoteCut);
  }

  lemma LoneQuoteColumns()
    ensures Columns("a,\"") == ["a", "\""] && !Text.TrimsToEmpty("a,\"")
  {
    var line := "a,\"";
    var cols := ["a", "\""];
    assert Text.Join(cols, ",") == line;
    Text.JavaSplitJoin(cols, ',');
    assert '\t' !in line;
    assert !Text.IsTrimmed(line[0]);
  }

  lemma LoneQuoteCells()
    ensures CellsOf(["a", "\""], ReadCell) == Failure(LoneQuoteCut)
  {
    var cols := ["a", "\""];
    assert PlainCell("a");
    PlainCellsRead(["a"]);
    Text.TrimOfTrimmed("\"");
    assert ReadCell("\"").Failure?;
    assert cols[..1] == ["a"];
  }

  // ---------------------------------------------------------------------------
  // The readings, as the source runs them
  // ---------------------------------------------------------------------------

  /** `parseNonStandardExcel`. */
  method ParseNonStandardExcel(content: string, scanners: Scanners) returns (r: Result<seq<seq<string>>, ReadFailure>)
    ensures r == NonStandardTable(content, scanners)
  {
    if XmlGate(content) {
      var table := ScanXml(scanners.xmlRows(content), CleanTagBytes);
      if table != [] {
        return Success(table);
      }
    }
    if HtmlGate(content) {
      var table := ScanHtml(scanners.htmlRows(content), CleanTagBytes);
      if table != [] {
        return Success(table);
      }
    }
    r := ParseDelimited(content);
  }

  /** The loop over the matched XML rows. */
  method ScanXml(matches: seq<seq<Option<string>>>, clean: Option<string> -> string) returns (table: seq<seq<string>>)
    ensures table == XmlTable(matches, clean)
  {
    table := [];
    for i := 0 to |matches|
      invariant table == XmlTable(matches[..i], clean)
    {
      XmlTableStep(matches, i, clean);
      var rowData := XmlRowData(matches[i], clean);
      if rowData != [] {
        table := table + [rowData];
      }
    }
    assert matches[..|matches|] == matches;
  }

  /** One more matched XML row adds its cells when it has any. */
  lemma XmlTableStep(matches: seq<seq<Option<string>>>, i: nat, clean: Option<string> -> string)
    requires i < |matches|
    ensures XmlTable(matches[..i + 1], clean) ==
      var row := XmlCells(matches[i], clean);
      if row == [] then XmlTable(matches[..i], clean) else XmlTable(matches[..i], clean) + [row]
  {
    assert matches[..i + 1][..i] == matches[..i];
  }

  /** One more matched HTML row adds its cells when it has any. */
  lemma HtmlTableStep(matches: seq<seq<string>>, i: nat, clean: Option<string> -> string)
    requires i < |matches|
    ensures HtmlTable(matches[..i + 1], clean) ==
      var row := HtmlCells(matches[i], clean);
      if row == [] then HtmlTable(matches[..i], clean) else HtmlTable(matches[..i], clean) + [row]
  {
    assert matches[..i + 1][..i] == matches[..i];
  }

  /** The loop over the cells of one XML row. */
  method XmlRowData(cells: seq<Option<string>>, clean: Option<string> -> string) returns (rowData: seq<string>)
    ensures rowData == XmlCells(cells, clean)
  {
    rowData := [];
    for j := 0 to |cells|
      invariant rowData == XmlCells(cells[..j], clean)
    {
      assert cells[..j + 1][..j] == cells[..j];
      if cells[j].Some? {
        rowData := rowData + [clean(cells[j])];
      } else {
        rowData := rowData + [""];
      }
    }
    assert cells[..|cells|] == cells;
  }

  /** The loop over the matched HTML rows. */
  method ScanHtml(matches: seq<seq<string>>, clean: Option<string> -> string) returns (table: seq<seq<string>>)
    ensures table == HtmlTable(matches, clean)
  {
    table := [];
    for i := 0 to |matches|
      invariant table == HtmlTable(matches[..i], clean)
    {
      HtmlTableStep(matches, i, clean);
      var row := HtmlRowData(matches[i], clean);
      if row != [] {
        table := table + [row];
      }
    }
    assert matches[..|matches|] == matches;
  }

  /** The loop over the cells of one HTML row. */
  method HtmlRowData(cells: seq<string>, clean: Option<string> -> string) returns (row: seq<string>)
    ensures row == HtmlCells(cells, clean)
  {
    row := [];
    for j := 0 to |cells|
      invariant row == HtmlCells(cells[..j], clean)
    {
      assert cells[..j + 1][..j] == cells[..j];
      row := row + [clean(Some(cells[j]))];
    }
    assert cells[..|cells|] == cells;
  }

  /** The delimited reading; a lone-quote cell throws out of the loop. */
  method ParseDelimited(content: string) returns (r: Result<seq<seq<string>>, ReadFailure>)
    ensures r == DelimitedTable(content)
  {
    var lines := Text.JavaSplit(content, '\n');
    var table := [];
    if |lines| > 1 {
      for i := 0 to |lines|
        invariant RowsOfLines(lines[..i]) == Success(table)
      {
        assert lines[..i + 1][..i] == lines[..i];
        var line := lines[i];
        if Text.TrimsToEmpty(line) {
          continue;
        }
        var cols := Columns(line);
        if |cols| > 0 {
          var row := ReadCells(cols, ReadCell);
          if row.Failure? {
            RowsFailureSticks(lines, i + 1);
            return Failure(row.error);
          }
          table := table + [row.value];
        }
      }
      assert lines[..|lines|] == lines;
    }
    r := Success(table);
  }

  /** The loop over one line's columns. */
  method ReadCells(cols: seq<string>, read: string -> Result<string, ReadFailure>) returns (r: Result<seq<string>, ReadFailure>)
    ensures r == CellsOf(cols, read)
  {
    var row := [];
    for k := 0 to |cols|
      invariant CellsOf(cols[..k], read) == Success(row)
    {
      assert cols[..k + 1][..k] == cols[..k];
      var val := read(cols[k]);
      if val.Failure? {
        CellsFailureSticks(cols, read, k + 1);
        return Failure(val.error);
      }
      row := row + [val.value];
    }
    assert cols[..|cols|] == cols;
    r := Success(row);
  }

  /** Once a line has failed, the reading stays failed with the same message. */
  lemma {:induction false} RowsFailureSticks(lines: seq<string>, i: nat)
    requires i <= |lines| && RowsOfLines(lines[..i]).Failure?
    ensures RowsOfLines(lines) == RowsOfLines(lines[..i])
    decreases |lines| - i
  {
    if i < |lines| {
      assert lines[..i + 1][..i] == lines[..i];
      RowsFailureSticks(lines, i + 1);
    } else {
      assert lines[..i] == lines;
    }
  }

  /** Once a cell has failed, the line stays failed with the same message. */
  lemma {:induction false} CellsFailureSticks(cols: seq<string>, read: string -> Result<string, ReadFailure>, k: nat)
    requires k <= |cols| && CellsOf(cols[..k], read).Failure?
    ensures CellsOf(cols, read) == CellsOf(cols[..k], read)
    decreases |cols| - k
  {
    if k < |cols| {
      assert cols[..k + 1][..k] == cols[..k];
      CellsFailureSticks(cols, read, k + 1);
    } else {
      assert cols[..k] == cols;
    }
  }
}
