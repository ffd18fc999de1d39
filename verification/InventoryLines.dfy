/** Which rows are read from a document that other hands have written: other line endings, blanks and bars. */
module InventoryLines {
  import opened Inventory
  import opened Numbers
  import opened PythonText
  import opened Wrappers
  import T = Totals

  // ----- line endings -----

  predicate IsEnding(e: string) { e == "\n" || e == "\r" || e == "\r\n" }

  /** The lines, each with its own ending. */
  function Ended(lines: seq<string>, ends: seq<string>): string
    requires |lines| == |ends|
  {
    if lines == [] then "" else lines[0] + (ends[0] + Ended(lines[1..], ends[1..]))
  }

  /** No carriage return meets the line feed that ends an empty line. */
  predicate Distinct(lines: seq<string>, ends: seq<string>)
    requires |lines| == |ends|
  {
    forall k :: 0 < k < |lines| && lines[k] == "" && ends[k] == "\n" ==> ends[k - 1] != "\r"
  }

  ghost predicate AreLines(lines: seq<string>, ends: seq<string>)
    requires |lines| == |ends|
  {
    (forall l | l in lines :: '\r' !in l && '\n' !in l) && (forall e | e in ends :: IsEnding(e)) && Distinct(lines, ends)
  }

  lemma {:induction false} LineThenEnding(line: string, e: string, rest: string)
    requires '\r' !in line && IsEnding(e) && (e == "\r" && rest != "" ==> rest[0] != '\n')
    ensures Universal(line + (e + rest)) == line + ("\n" + Universal(rest))
  {
    if line == "" {
      EndingRead(e, rest);
      assert line + (e + rest) == e + rest && line + ("\n" + Universal(rest)) == "\n" + Universal(rest);
    } else {
      assert line[0] in line && forall c | c in line[1..] :: c in line;
      hide Universal;
      LineThenEnding(line[1..], e, rest);
      CharCopied(line[0], line[1..] + (e + rest));
      CharAhead(line, e + rest);
      CharAhead(line, "\n" + Universal(rest));
    }
  }

  lemma CharAhead(line: string, u: string)
    requires line != ""
    ensures [line[0]] + (line[1..] + u) == line + u
  {
  }

  lemma CharCopied(c: char, t: string)
    requires c != '\r'
    ensures Universal([c] + t) == [c] + Universal(t)
  {
    assert ([c] + t)[1..] == t;
  }

  lemma EndingRead(e: string, rest: string)
    requires IsEnding(e) && (e == "\r" && rest != "" ==> rest[0] != '\n')
    ensures Universal(e + rest) == "\n" + Universal(rest)
  {
    var t := e + rest;
    assert e == "\r\n" ==> t[1] == '\n' && t[2..] == rest;
    assert |e| == 1 ==> t[1..] == rest;
  }

  /** However the lines of a document end, the rows read are those of its lines. */
  lemma AnyLineEnding(lines: seq<string>, ends: seq<string>)
    requires |lines| == |ends| && AreLines(lines, ends)
    ensures ParseDocument(Ended(lines, ends)) == ParseLines(lines)
  {
    EndedSplit(lines, ends);
    NothingOnEmpty();
    hide ParseLine, Split, Universal;
    ParseAppend(lines, [""]);
  }

  lemma NothingOnEmpty()
    ensures ParseLines([""]) == []
  {
    assert ParseLine("").None?;
  }

  lemma {:induction false} EndedSplit(lines: seq<string>, ends: seq<string>)
    requires |lines| == |ends| && AreLines(lines, ends)
    ensures Split(Universal(Ended(lines, ends)), '\n') == lines + [""]
    decreases |lines|
  {
    hide Universal, Split;
    if lines == [] {
      assert Split(Universal(""), '\n') == [""] by { EmptyFile(); }
    } else {
      var line, e, rest := lines[0], ends[0], Ended(lines[1..], ends[1..]);
      AreLinesRest(lines, ends);
      EndedSplit(lines[1..], ends[1..]);
      LineThenEnding(line, e, rest);
      SplitFirst(line, Universal(rest), '\n');
      assert line + ("\n" + Universal(rest)) == line + ['\n'] + Universal(rest);
      assert [line] + (lines[1..] + [""]) == lines + [""];
    }
  }

  lemma EmptyFile()
    ensures Split(Universal(""), '\n') == [""]
  {
  }

  lemma AreLinesRest(lines: seq<string>, ends: seq<string>)
    requires lines != [] && |lines| == |ends| && AreLines(lines, ends)
    ensures AreLines(lines[1..], ends[1..]) && '\r' !in lines[0] && '\n' !in lines[0] && IsEnding(ends[0])
    ensures var rest := Ended(lines[1..], ends[1..]); ends[0] == "\r" && rest != "" ==> rest[0] != '\n'
  {
    assert lines[0] in lines && ends[0] in ends;
    assert forall l | l in lines[1..] :: l in lines;
    assert forall e | e in ends[1..] :: e in ends;
    if |lines| > 1 {
      assert lines[1] in lines && ends[1] in ends;
      assert lines[1] != "" ==> lines[1][0] in lines[1];
      assert lines[1..][0] == lines[1] && ends[1..][0] == ends[1];
    }
  }

  // ----- one line -----

  predicate AreBars(s: string) { forall c | c in s :: c == '|' }

  /** Nothing but blanks around the core. */
  ghost predicate IsAround(cell: string, core: string) {
    IsCore(core) && exists a, b :: AreBlanks(a) && AreBlanks(b) && cell == a + core + b
  }

  lemma {:induction false} BarsGo(a: string, x: string, b: string)
    requires AreBars(a) && AreBars(b) && x != "" && x[0] != '|' && x[|x| - 1] != '|'
    ensures WithoutBars(a + x + b) == x
    decreases |a| + |b|
  {
    var s := a + x + b;
    if a != "" {
      assert a[0] in a && s[1..] == a[1..] + x + b;
      assert forall c | c in a[1..] :: c in a;
      BarsGo(a[1..], x, b);
    } else if b != "" {
      var front := b[..|b| - 1];
      assert b[|b| - 1] in b && s[..|s| - 1] == a + x + front && s[0] == x[0];
      assert forall c | c in front :: c in b;
      BarsGo(a, x, front);
    } else {
      assert s == x;
    }
  }

  /** Cells between bars, the outer ones not empty. */
  ghost predicate AreCells(cells: seq<string>, cores: seq<string>) {
    && |cells| == |cores| > 0 && cells[0] != "" && cells[|cells| - 1] != ""
    && forall k :: 0 <= k < |cells| ==> '|' !in cells[k] && IsAround(cells[k], cores[k])
  }

  /** A line that starts with bars is a row exactly if it has four cells and a number in the second; the row
      has the cells without the blanks around them. */
  lemma LineRead(before: string, bars: string, cells: seq<string>, cores: seq<string>, closing: string, after: string)
    requires AreBlanks(before) && AreBlanks(after) && bars != "" && AreBars(bars) && AreBars(closing)
    requires AreCells(cells, cores)
    requires closing == "" ==> !IsPythonSpace(cells[|cells| - 1][|cells[|cells| - 1]| - 1])
    ensures var line := before + (bars + Joined(cells, '|') + closing) + after;
            ParseLine(line) ==
            if |cores| == 4 && cores[1] != "" && (forall c | c in cores[1] :: '0' <= c <= '9')
            then Some(Row(cores[0], cores[1], cores[2], cores[3])) else None
  {
    var inner := Joined(cells, '|');
    var x := bars + inner + closing;
    hide *;
    CellsJoined(cells, cores);
    JoinedCore(bars, inner, closing);
    StrippedIs(before, x, after);
    BarsGo(bars, inner, closing);
    ReadCells(before + x + after, x, inner, cells, cores);
  }

  lemma CellsJoined(cells: seq<string>, cores: seq<string>)
    requires AreCells(cells, cores)
    ensures cells != []
    ensures var j, z := Joined(cells, '|'), cells[|cells| - 1];
            j != "" && z != "" && j[0] != '|' && j[|j| - 1] != '|' && j[|j| - 1] == z[|z| - 1] && Split(j, '|') == cells
  {
    var j, a, z := Joined(cells, '|'), cells[0], cells[|cells| - 1];
    assert '|' !in a && '|' !in z;
    assert forall c | c in cells :: '|' !in c;
    hide Joined, Split, IsAround;
    JoinedEdges(cells, '|');
    assert j[0] == a[0] && j[|j| - 1] == z[|z| - 1];
    SplitJoined(cells, '|');
  }

  lemma JoinedCore(bars: string, inner: string, closing: string)
    requires bars != "" && AreBars(bars) && AreBars(closing) && inner != ""
    requires closing == "" ==> !IsPythonSpace(inner[|inner| - 1])
    ensures var x := bars + inner + closing; IsCore(x) && x != "" && x[0] == '|'
  {
    var x := bars + inner + closing;
    assert x[0] == bars[0] && bars[0] in bars;
    if closing == "" {
      assert x[|x| - 1] == inner[|inner| - 1];
    } else {
      assert x[|x| - 1] == closing[|closing| - 1] && closing[|closing| - 1] in closing;
    }
  }

  lemma CoreRead(cell: string, core: string)
    requires IsAround(cell, core)
    ensures Stripped(cell) == core
  {
    var a, b :| AreBlanks(a) && AreBlanks(b) && cell == a + core + b;
    StrippedIs(a, core, b);
  }

  lemma ReadCells(line: string, x: string, inner: string, cells: seq<string>, cores: seq<string>)
    requires AreCells(cells, cores) && Stripped(line) == x && x != "" && x[0] == '|'
    requires WithoutBars(x) == inner && Split(inner, '|') == cells
    ensures ParseLine(line) ==
            if |cores| == 4 && cores[1] != "" && (forall c | c in cores[1] :: '0' <= c <= '9')
            then Some(Row(cores[0], cores[1], cores[2], cores[3])) else None
  {
    hide Stripped, WithoutBars, Split, IsAround;
    if |cells| == 4 {
      CoreRead(cells[0], cores[0]);
      CoreRead(cells[1], cores[1]);
      CoreRead(cells[2], cores[2]);
      CoreRead(cells[3], cores[3]);
    }
  }

  /** A line that starts with something else, or is blank, is no row. */
  lemma NoBarNoRow(before: string, x: string, after: string)
    requires AreBlanks(before) && AreBlanks(after) && IsCore(x) && (x != "" ==> x[0] != '|')
    ensures ParseLine(before + x + after) == None
  {
    hide AreBlanks, IsCore, Stripped;
    StrippedIs(before, x, after);
  }

  // ----- the written document -----

  /** The document counts its files and its rows, and shows a row and a total cell by cell. */
  lemma DocumentShows(sha: string, path: string, rows: seq<Row>, totals: seq<T.Total>, k: nat, m: nat)
    requires k < |rows| && m < |totals|
    ensures var doc, n := Inventoried(sha, path, rows, totals), |rows|;
            && |doc| == 23 + n + |totals|
            && doc[7] == "生成元SHA: " + sha
            && doc[11] == "合計: " + Decimal(|set r | r in rows :: r.file|) + "ファイル・" + Decimal(n) + "件"
            && doc[13] == "## 一覧"
            && doc[15] == "| ファイル | 行 | 元の表記 | 束ねた名前 |" && doc[16] == "|---|---|---|---|"
            && doc[17 + k] ==
               "| " + rows[k].file + " | " + rows[k].line + " | " + rows[k].name + " | " + rows[k].bundled + " |"
            && doc[17 + n] == "" && doc[18 + n] == "## 集計（束ねた名前ごと・多い順）" && doc[19 + n] == ""
            && doc[20 + n] == "| 名前 | 件数 |" && doc[21 + n] == "|---|---|"
            && doc[22 + n + m] == "| " + totals[m].0 + " | " + Decimal(totals[m].1) + " |"
            && doc[22 + n + |totals|] == ""
  {
    hide *;
    var f := |Files(rows)|;
    FilesAre(rows);
    RowLinesShow(rows, k);
    TotalLinesShow(totals, m);
    PrefaceShows(sha, path, f, |rows|);
    HeadsShow();
    RowShows(rows[k]);
    TotalShows(totals[m]);
    Composed(sha, path, rows, totals);
    Placed(Preface(sha, path, f, |rows|), HEADS, RowLines(rows), Between(), TOTAL_HEADS, TotalLines(totals), k, m);
  }

  lemma FilesAre(rows: seq<Row>)
    ensures Files(rows) == set r | r in rows :: r.file
  {
  }

  lemma Composed(sha: string, path: string, rows: seq<Row>, totals: seq<T.Total>)
    ensures Inventoried(sha, path, rows, totals) ==
            Preface(sha, path, |Files(rows)|, |rows|) + HEADS + RowLines(rows) + Between() + TOTAL_HEADS
            + TotalLines(totals) + [""]
  {
    hide Preface, Files, HEADS, RowLines, Between, TOTAL_HEADS, TotalLines;
  }

  lemma {:induction false} RowLinesShow(rows: seq<Row>, k: nat)
    requires k < |rows|
    ensures |RowLines(rows)| == |rows| && RowLines(rows)[k] == RowLine(rows[k])
  {
    hide RowLine;
    if |rows| > 1 {
      RowLinesShow(rows[1..], if k > 0 then k - 1 else 0);
    }
  }

  lemma {:induction false} TotalLinesShow(totals: seq<T.Total>, k: nat)
    requires k < |totals|
    ensures |TotalLines(totals)| == |totals| && TotalLines(totals)[k] == TotalLine(totals[k])
  {
    hide TotalLine;
    if |totals| > 1 {
      TotalLinesShow(totals[1..], if k > 0 then k - 1 else 0);
    }
  }

  lemma RowShows(r: Row)
    ensures RowLine(r) == "| " + r.file + " | " + r.line + " | " + r.name + " | " + r.bundled + " |"
  {
    var a, b, c, d := " " + r.file + " ", " " + r.line + " ", " " + r.name + " ", " " + r.bundled + " ";
    JoinedFour(a, b, c, d);
    hide Joined;
    assert RowLine(r) == "|" + (a + ("|" + (b + ("|" + (c + ("|" + d)))))) + "|";
  }

  lemma JoinedFour(a: string, b: string, c: string, d: string)
    ensures Joined([a, b, c, d], '|') == a + ("|" + (b + ("|" + (c + ("|" + d)))))
  {
    JoinedTwo(c, d);
    hide Joined;
    assert Joined([b, c, d], '|') == b + "|" + Joined([c, d], '|') by { JoinedMore([b, c, d]); }
    JoinedMore([a, b, c, d]);
  }

  lemma JoinedMore(cells: seq<string>)
    requires |cells| > 1
    ensures Joined(cells, '|') == cells[0] + "|" + Joined(cells[1..], '|')
  {
  }

  lemma JoinedTwo(a: string, b: string)
    ensures Joined([a, b], '|') == a + ("|" + b)
  {
    assert [a, b][1..] == [b];
  }

  lemma TotalShows(total: T.Total)
    ensures TotalLine(total) == "| " + total.0 + " | " + Decimal(total.1) + " |"
  {
    hide Decimal;
    JoinedTwo(" " + total.0 + " ", " " + Decimal(total.1) + " ");
    hide Joined;
  }

  lemma HeadsShow()
    ensures HEADS == ["| ファイル | 行 | 元の表記 | 束ねた名前 |", "|---|---|---|---|"]
    ensures TOTAL_HEADS == ["| 名前 | 件数 |", "|---|---|"]
    ensures Between() == ["", "## 集計（束ねた名前ごと・多い順）", ""]
  {
    RowHead();
    TotalHead();
    hide TableLine;
  }

  lemma RowHead()
    ensures TableLine(HEAD_CELLS) == "| ファイル | 行 | 元の表記 | 束ねた名前 |"
    ensures TableLine(RULE_CELLS) == "|---|---|---|---|"
  {
    JoinedFour(" ファイル ", " 行 ", " 元の表記 ", " 束ねた名前 ");
    JoinedFour("---", "---", "---", "---");
    hide Joined;
    assert TableLine(HEAD_CELLS) == "|" + (" ファイル " + ("|" + (" 行 " + ("|" + (" 元の表記 " + ("|" + " 束ねた名前 ")))))) + "|";
    assert TableLine(RULE_CELLS) == "|" + ("---" + ("|" + ("---" + ("|" + ("---" + ("|" + "---")))))) + "|";
  }

  lemma TotalHead()
    ensures TableLine(TOTAL_HEAD_CELLS) == "| 名前 | 件数 |" && TableLine(TOTAL_RULE_CELLS) == "|---|---|"
  {
    JoinedTwo(" 名前 ", " 件数 ");
    JoinedTwo("---", "---");
    hide Joined;
    assert TableLine(TOTAL_HEAD_CELLS) == "|" + (" 名前 " + ("|" + " 件数 ")) + "|";
    assert TableLine(TOTAL_RULE_CELLS) == "|" + ("---" + ("|" + "---")) + "|";
  }

  lemma PrefaceShows(sha: string, path: string, files: nat, tables: nat)
    ensures var p := Preface(sha, path, files, tables);
            && |p| == 15 && p[7] == "生成元SHA: " + sha
            && p[11] == "合計: " + Decimal(files) + "ファイル・" + Decimal(tables) + "件" && p[13] == "## 一覧"
  {
    hide Decimal;
  }

  lemma Placed(p: seq<string>, h: seq<string>, rows: seq<string>, b: seq<string>, th: seq<string>,
               totals: seq<string>, k: nat, m: nat)
    requires |p| == 15 && |h| == 2 && |b| == 3 && |th| == 2 && k < |rows| && m < |totals|
    ensures var doc, n := p + h + rows + b + th + totals + [""], |rows|;
            && |doc| == 23 + n + |totals| && (forall i :: 0 <= i < 15 ==> doc[i] == p[i])
            && doc[15] == h[0] && doc[16] == h[1] && doc[17 + k] == rows[k]
            && doc[17 + n] == b[0] && doc[18 + n] == b[1] && doc[19 + n] == b[2]
            && doc[20 + n] == th[0] && doc[21 + n] == th[1]
            && doc[22 + n + m] == totals[m] && doc[22 + n + |totals|] == ""
  {
  }
}
