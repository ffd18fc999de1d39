/** The inventory of copied table definitions: writing it as a document, reading
    the document back, and comparing it with what is measured. */
module Inventory {
  import opened Numbers
  import opened PythonText
  import opened Wrappers
  import T = Totals

  /** A copied definition: the file, the line, the name as written and the name without schema prefixes. */
  datatype Row = Row(file: string, line: string, name: string, bundled: string)

  // ----- names -----

  function DigitsEnd(n: string, k: nat): (r: nat)
    requires k <= |n|
    ensures k <= r <= |n|
    decreases |n| - k
  {
    if k < |n| && IsDigit(n[k]) then DigitsEnd(n, k + 1) else k
  }

  function BraceEnd(n: string, k: nat): (r: nat)
    requires k <= |n|
    ensures k <= r <= |n|
    decreases |n| - k
  {
    if k < |n| && n[k] != '}' then BraceEnd(n, k + 1) else k
  }

  const TENANT := "tenant_"

  /** The length of a schema prefix {...}. or tenant_<digits>. ; 0 without one. */
  function PrefixLength(n: string): (r: nat)
    ensures r <= |n|
  {
    if n != [] && n[0] == '{' then
      var e := BraceEnd(n, 1);
      if e + 1 < |n| && n[e + 1] == '.' then e + 2 else 0
    else if TENANT <= n then
      var e := DigitsEnd(n, |TENANT|);
      if |TENANT| < e < |n| && n[e] == '.' then e + 1 else 0
    else 0
  }

  function Normalized(n: string): (r: string)
    ensures PrefixLength(r) == 0
    decreases |n|
  {
    if PrefixLength(n) == 0 then n else Normalized(n[PrefixLength(n)..])
  }

  method NormalizeName(name: string) returns (n: string)
    ensures n == Normalized(name) && PrefixLength(n) == 0
  {
    n := name;
    while PrefixLength(n) != 0
      invariant Normalized(n) == Normalized(name)
      decreases |n|
    {
      n := n[PrefixLength(n)..];
    }
  }

  // ----- lines and cells -----

  /** The text cut at every separator. */
  function Split(t: string, sep: char): (r: seq<string>)
    ensures r != []
  {
    if t == [] then [[]]
    else
      var rest := Split(t[1..], sep);
      if t[0] == sep then [[]] + rest else [[t[0]] + rest[0]] + rest[1..]
  }

  function Joined(parts: seq<string>, sep: char): string
    requires parts != []
  {
    if |parts| == 1 then parts[0] else parts[0] + [sep] + Joined(parts[1..], sep)
  }

  lemma {:induction false} SplitFirst(a: string, t: string, sep: char)
    requires sep !in a
    ensures Split(a + [sep] + t, sep) == [a] + Split(t, sep)
    ensures Split(a, sep) == [a]
  {
    if a == [] {
      assert a + [sep] + t == [sep] + t;
    } else {
      assert a[0] in a && forall c | c in a[1..] :: c in a;
      SplitFirst(a[1..], t, sep);
      assert (a + [sep] + t)[1..] == a[1..] + [sep] + t;
      assert [a[0]] + a[1..] == a;
    }
  }

  lemma {:induction false} SplitJoined(parts: seq<string>, sep: char)
    requires parts != [] && forall p | p in parts :: sep !in p
    ensures Split(Joined(parts, sep), sep) == parts
  {
    assert parts[0] in parts && forall p | p in parts[1..] :: p in parts;
    SplitFirst(parts[0], if |parts| == 1 then "" else Joined(parts[1..], sep), sep);
    if |parts| > 1 {
      SplitJoined(parts[1..], sep);
      assert parts == [parts[0]] + parts[1..];
    }
  }

  function WithoutBars(s: string): string {
    if s == [] then s
    else if s[0] == '|' then WithoutBars(s[1..])
    else if s[|s| - 1] == '|' then WithoutBars(s[..|s| - 1])
    else s
  }

  predicate IsNumber(s: string) { s != [] && forall c | c in s :: IsDigit(c) }

  /** The row a line stands for. */
  function ParseLine(text: string): Option<Row> {
    var line := Stripped(text);
    if line == [] || line[0] != '|' then None
    else
      var cells := Split(WithoutBars(line), '|');
      if |cells| != 4 then None
      else if !IsNumber(Stripped(cells[1])) then None
      else Some(Row(Stripped(cells[0]), Stripped(cells[1]), Stripped(cells[2]), Stripped(cells[3])))
  }

  function ParseLines(lines: seq<string>): seq<Row> {
    if lines == [] then []
    else
      var r := ParseLine(lines[0]);
      (if r.Some? then [r.value] else []) + ParseLines(lines[1..])
  }

  /** Opening a file as text turns every line ending into a line feed. */
  function Universal(t: string): string {
    if t == [] then t
    else if t[0] == '\r' then "\n" + Universal(if |t| > 1 && t[1] == '\n' then t[2..] else t[1..])
    else [t[0]] + Universal(t[1..])
  }

  function ParseDocument(document: string): seq<Row> {
    ParseLines(Split(Universal(document), '\n'))
  }

  method RowsFromFile(document: string) returns (rows: seq<Row>)
    ensures rows == ParseDocument(document)
  {
    hide ParseLine, Split, Universal;
    var lines := Split(Universal(document), '\n');
    rows := [];
    for k := 0 to |lines|
      invariant rows + ParseLines(lines[k..]) == ParseLines(lines)
    {
      assert lines[k..][0] == lines[k] && lines[k..][1..] == lines[k + 1..];
      var r := ParseLine(lines[k]);
      ghost var rest := ParseLines(lines[k + 1..]);
      if r.None? {
        assert rows + ([] + rest) == rows + rest;
        continue;
      }
      assert rows + ([r.value] + rest) == rows + [r.value] + rest;
      rows := rows + [r.value];
    }
  }

  // ----- the document -----

  function RowLine(r: Row): string {
    "|" + Joined([" " + r.file + " ", " " + r.line + " ", " " + r.name + " ", " " + r.bundled + " "], '|') + "|"
  }

  function RowLines(rows: seq<Row>): seq<string> {
    if rows == [] then [] else [RowLine(rows[0])] + RowLines(rows[1..])
  }

  /** A line of the totals: a name and how often it occurs. */
  function TotalLine(total: T.Total): string {
    "|" + Joined([" " + total.0 + " ", " " + Decimal(total.1) + " "], '|') + "|"
  }

  function TotalLines(totals: seq<T.Total>): seq<string> {
    if totals == [] then [] else [TotalLine(totals[0])] + TotalLines(totals[1..])
  }

  const HEAD_CELLS := [" ファイル ", " 行 ", " 元の表記 ", " 束ねた名前 "]
  const RULE_CELLS := ["---", "---", "---", "---"]
  const TOTAL_HEAD_CELLS := [" 名前 ", " 件数 "]
  const TOTAL_RULE_CELLS := ["---", "---"]

  function TableLine(cells: seq<string>): string
    requires cells != []
  {
    "|" + Joined(cells, '|') + "|"
  }

  const HEADS := [TableLine(HEAD_CELLS), TableLine(RULE_CELLS)]
  const TOTAL_HEADS := [TableLine(TOTAL_HEAD_CELLS), TableLine(TOTAL_RULE_CELLS)]

  /** The document: prose, the table of rows, prose, the table of totals and an empty last line. */
  function Document(preface: seq<string>, rows: seq<Row>, between: seq<string>, totals: seq<T.Total>): seq<string> {
    preface + HEADS + RowLines(rows) + between + TOTAL_HEADS + TotalLines(totals) + [""]
  }

  // The lines of prose at the start of the written document.
  function Title(): string { "# 柱3-c 既存複製一覧" + "（機械生成・手で編集しない）" }
  function NoteHead(): string { "> この文書は何か（専門用語なしの1行）:" }
  function Copies(): string { "テストが本番のテーブル定義を" + "コピーしている箇所の全件リスト。" }
  function Progress(): string { "片付けの進み具合を数える表。" }
  function Note(): string { "> " + Copies() + Progress() }
  function Folder(): string { "docs/specs/" + "process-hardening/" }
  function Script(): string { "python3 scripts/" + "check_test_schema_dup.py" }
  function Parent(): string { "親: " + Folder() + "kgi.md（柱3-c）" }
  function Design(): string { "設計: " + Folder() + "design-pillar3.md" }
  function ShaLine(sha: string): string { "生成元SHA: " + sha }
  function WriteLine(path: string): string { "生成: " + Script() + " --write-inventory <sha> " + path }
  function CheckLine(path: string): string { "照合: " + Script() + " --check-inventory " + path + " <sha>" }
  function CountLine(files: nat, tables: nat): string { "合計: " + Decimal(files) + "ファイル・" + Decimal(tables) + "件" }
  function ListHead(): string { "## 一覧" }
  function TotalsHead(): string { "## 集計（束ねた名前ごと・多い順）" }

  function PrefaceLine(k: nat, sha: string, path: string, files: nat, tables: nat): string {
    match k
    case 0 => Title()
    case 2 => NoteHead()
    case 3 => Note()
    case 5 => Parent()
    case 6 => Design()
    case 7 => ShaLine(sha)
    case 8 => WriteLine(path)
    case 9 => CheckLine(path)
    case 11 => CountLine(files, tables)
    case 13 => ListHead()
    case _ => ""
  }

  function Preface(sha: string, path: string, files: nat, tables: nat): (lines: seq<string>)
    ensures |lines| == 15 && forall k :: 0 <= k < 15 ==> lines[k] == PrefaceLine(k, sha, path, files, tables)
  {
    seq(15, k requires 0 <= k < 15 => PrefaceLine(k, sha, path, files, tables))
  }

  function Between(): seq<string> { ["", TotalsHead(), ""] }

  function Names(rows: seq<Row>): (names: seq<string>)
    ensures |names| == |rows| && forall k :: 0 <= k < |rows| ==> names[k] == rows[k].bundled
  {
    seq(|rows|, k requires 0 <= k < |rows| => rows[k].bundled)
  }

  function Files(rows: seq<Row>): set<string> { set r | r in rows :: r.file }

  /** The document for these rows. */
  function Inventoried(sha: string, path: string, rows: seq<Row>, totals: seq<T.Total>): seq<string> {
    Document(Preface(sha, path, |Files(rows)|, |rows|), rows, Between(), totals)
  }

  lemma RowLinesAt(rows: seq<Row>, k: nat)
    requires k < |rows|
    ensures RowLines(rows[k..]) == [RowLine(rows[k])] + RowLines(rows[k + 1..])
  {
    hide RowLine;
    assert rows[k..][0] == rows[k] && rows[k..][1..] == rows[k + 1..];
  }

  lemma TotalLinesAt(totals: seq<T.Total>, k: nat)
    requires k < |totals|
    ensures TotalLines(totals[k..]) == [TotalLine(totals[k])] + TotalLines(totals[k + 1..])
  {
    hide TotalLine;
    assert totals[k..][0] == totals[k] && totals[k..][1..] == totals[k + 1..];
  }

  lemma NoLines(rows: seq<Row>, totals: seq<T.Total>, out: seq<string>)
    ensures out + RowLines(rows[|rows|..]) == out && out + TotalLines(totals[|totals|..]) == out
    ensures rows[0..] == rows && totals[0..] == totals
  {
  }

  lemma Regroup(a: seq<string>, x: string, b: seq<string>)
    ensures a + ([x] + b) == a + [x] + b
  {
  }

  method GenerateInventory(sha: string, path: string, rows: seq<Row>) returns (document: string, totals: seq<T.Total>)
    ensures T.AreTotals(totals, Names(rows))
    ensures document == Joined(Inventoried(sha, path, rows, totals), '\n')
  {
    hide RowLine, TotalLine, RowLines, TotalLines, TableLine, Preface, Files, T.AreTotals;
    totals := T.Tally(Names(rows));
    NoLines(rows, totals, []);
    var out := Preface(sha, path, |Files(rows)|, |rows|) + HEADS;
    ghost var before := out;
    for k := 0 to |rows|
      invariant out + RowLines(rows[k..]) == before + RowLines(rows)
    {
      RowLinesAt(rows, k);
      Regroup(out, RowLine(rows[k]), RowLines(rows[k + 1..]));
      out := out + [RowLine(rows[k])];
    }
    NoLines(rows, totals, out);
    out := out + Between() + TOTAL_HEADS;
    before := out;
    for k := 0 to |totals|
      invariant out + TotalLines(totals[k..]) == before + TotalLines(totals)
    {
      TotalLinesAt(totals, k);
      Regroup(out, TotalLine(totals[k]), TotalLines(totals[k + 1..]));
      out := out + [TotalLine(totals[k])];
    }
    NoLines(rows, totals, out);
    out := out + [""];
    document := Joined(out, '\n');
  }

  // ----- reading the document back -----

  predicate IsLine(l: string) { '\n' !in l && '\r' !in l }

  /** A cell without separators, line breaks and outer blanks. */
  predicate IsCell(c: string) {
    '|' !in c && IsLine(c) && Stripped(c) == c
  }

  predicate IsRow(r: Row) {
    IsCell(r.file) && IsCell(r.line) && IsCell(r.name) && IsCell(r.bundled) && IsNumber(r.line)
  }

  /** A line of prose: no line break in it, and what is left without blanks does not start a table. */
  predicate IsProse(line: string) {
    IsLine(line) && (Stripped(line) == [] || Stripped(line)[0] != '|')
  }

  lemma StrippedPadded(c: string)
    requires Stripped(c) == c
    ensures Stripped(" " + c + " ") == c
  {
    var s := " " + c + " ";
    assert s[1..] == c + " ";
    var t := c + " ";
    assert t[..|t| - 1] == c;
    if c == [] {
      assert Stripped(t) == Stripped(t[1..]);
    } else {
      assert t[0] == c[0];
      StrippedEdges(c);
    }
  }

  lemma {:induction false} StrippedShort(c: string)
    ensures |Stripped(c)| <= |c|
  {
    if c != [] {
      if IsPythonSpace(c[0]) {
        StrippedShort(c[1..]);
      } else if IsPythonSpace(c[|c| - 1]) {
        StrippedShort(c[..|c| - 1]);
      }
    }
  }

  lemma StrippedEdges(c: string)
    requires c != [] && Stripped(c) == c
    ensures !IsPythonSpace(c[0]) && !IsPythonSpace(c[|c| - 1])
  {
    if IsPythonSpace(c[0]) {
      StrippedShort(c[1..]);
    } else if IsPythonSpace(c[|c| - 1]) {
      StrippedShort(c[..|c| - 1]);
    }
  }

  /** A table line is read cell by cell. */
  lemma TableLineSplits(cells: seq<string>)
    requires cells != [] && forall c | c in cells :: '|' !in c
    requires cells[0] != [] && cells[|cells| - 1] != []
    ensures var line := TableLine(cells);
            Stripped(line) == line && line[0] == '|' && Split(WithoutBars(line), '|') == cells
  {
    var inner := Joined(cells, '|');
    var line := "|" + inner + "|";
    JoinedEdges(cells, '|');
    assert cells[0] in cells && cells[|cells| - 1] in cells;
    assert line[1..] == inner + "|";
    assert (inner + "|")[..|inner|] == inner;
    assert inner[0] in cells[0] && inner[|inner| - 1] in cells[|cells| - 1];
    assert WithoutBars(inner) == inner;
    assert WithoutBars(inner + "|") == inner;
    SplitJoined(cells, '|');
  }

  lemma {:induction false} JoinedEdges(cells: seq<string>, sep: char)
    requires cells != [] && cells[0] != [] && cells[|cells| - 1] != []
    ensures var j := Joined(cells, sep);
            j != [] && j[0] == cells[0][0] && j[|j| - 1] == cells[|cells| - 1][|cells[|cells| - 1]| - 1]
  {
    if |cells| > 1 {
      if cells[1..][0] != [] {
        JoinedEdges(cells[1..], sep);
      } else {
        JoinedLast(cells[1..], sep);
      }
    }
  }

  lemma {:induction false} JoinedLast(cells: seq<string>, sep: char)
    requires cells != [] && cells[|cells| - 1] != []
    ensures var j := Joined(cells, sep);
            j != [] && j[|j| - 1] == cells[|cells| - 1][|cells[|cells| - 1]| - 1]
  {
    if |cells| > 1 {
      JoinedLast(cells[1..], sep);
    }
  }

  lemma RowReadsBack(r: Row)
    requires IsRow(r)
    ensures ParseLine(RowLine(r)) == Some(r)
  {
    var cells := [" " + r.file + " ", " " + r.line + " ", " " + r.name + " ", " " + r.bundled + " "];
    assert forall c | c in cells :: '|' !in c;
    TableLineSplits(cells);
    StrippedPadded(r.file);
    StrippedPadded(r.line);
    StrippedPadded(r.name);
    StrippedPadded(r.bundled);
  }

  lemma DecimalIsCell(n: nat)
    ensures IsCell(Decimal(n))
  {
    var s := Decimal(n);
    assert forall k | 0 <= k < |s| :: IsDigit(s[k]);
    assert forall c | c in s :: IsDigit(c) && !IsPythonSpace(c);
    assert s[0] in s && s[|s| - 1] in s;
  }

  lemma TotalIsNoRow(total: T.Total)
    requires IsCell(total.0)
    ensures ParseLine(TotalLine(total)).None?
  {
    DecimalIsCell(total.1);
    var cells := [" " + total.0 + " ", " " + Decimal(total.1) + " "];
    assert forall c | c in cells :: '|' !in c;
    TableLineSplits(cells);
  }

  /** A table line whose second cell is no number, or with another number of cells, is no row. */
  lemma NoNumberNoRow(cells: seq<string>)
    requires cells != [] && forall c | c in cells :: '|' !in c
    requires cells[0] != [] && cells[|cells| - 1] != []
    requires |cells| != 4 || !IsNumber(Stripped(cells[1]))
    ensures ParseLine(TableLine(cells)).None?
  {
    hide TableLine, WithoutBars, Split, Stripped, IsNumber;
    TableLineSplits(cells);
  }

  lemma RuleIsNoNumber()
    ensures !IsNumber(Stripped("---"))
  {
    assert Stripped("---") == "---" && "---"[0] in "---" && !IsDigit('-');
  }

  lemma HeadIsNoNumber()
    ensures !IsNumber(Stripped(" 行 "))
  {
    hide IsDigit, IsPythonSpace;
    assert IsPythonSpace(' ') && !IsPythonSpace('行') && !IsDigit('行') by { BlankAndKanji(); }
    var n := "行 ";
    assert " 行 "[1..] == n && n[..1] == "行" && n[0] == '行';
    assert Stripped("行") == "行";
    assert Stripped(n) == Stripped("行");
    assert '行' in "行";
  }

  lemma BlankAndKanji()
    ensures IsPythonSpace(' ') && !IsPythonSpace('行') && !IsDigit('行')
  {
  }

  lemma HeadsAreNoRows()
    ensures ParseLines(HEADS) == [] && ParseLines(TOTAL_HEADS) == []
  {
    RuleIsNoNumber();
    HeadIsNoNumber();
    hide TableLine, Stripped, IsNumber, ParseLine;
    NoNumberNoRow(HEAD_CELLS);
    NoNumberNoRow(RULE_CELLS);
    NoNumberNoRow(TOTAL_HEAD_CELLS);
    NoNumberNoRow(TOTAL_RULE_CELLS);
    NoRows(HEADS);
    NoRows(TOTAL_HEADS);
  }

  lemma {:induction false} ParseAppend(p: seq<string>, q: seq<string>)
    ensures ParseLines(p + q) == ParseLines(p) + ParseLines(q)
  {
    hide ParseLine;
    if p == [] {
      assert p + q == q;
    } else {
      assert (p + q)[1..] == p[1..] + q && (p + q)[0] == p[0];
      ParseAppend(p[1..], q);
      var r := ParseLine(p[0]);
      var first := if r.Some? then [r.value] else [];
      assert ParseLines(p + q) == first + (ParseLines(p[1..]) + ParseLines(q));
      assert ParseLines(p) + ParseLines(q) == first + ParseLines(p[1..]) + ParseLines(q);
    }
  }

  lemma {:induction false} NoRows(lines: seq<string>)
    requires forall l | l in lines :: ParseLine(l).None?
    ensures ParseLines(lines) == []
  {
    if lines != [] {
      assert lines[0] in lines && forall l | l in lines[1..] :: l in lines;
      NoRows(lines[1..]);
    }
  }

  lemma {:induction false} RowLinesReadBack(rows: seq<Row>)
    requires forall r | r in rows :: IsRow(r)
    ensures ParseLines(RowLines(rows)) == rows
  {
    if rows != [] {
      assert rows[0] in rows && forall r | r in rows[1..] :: r in rows;
      RowReadsBack(rows[0]);
      RowLinesReadBack(rows[1..]);
    }
  }

  lemma {:induction false} TotalLinesAreNoRows(totals: seq<T.Total>)
    requires forall x | x in totals :: IsCell(x.0)
    ensures ParseLines(TotalLines(totals)) == []
  {
    if totals != [] {
      assert totals[0] in totals && forall x | x in totals[1..] :: x in totals;
      TotalIsNoRow(totals[0]);
      TotalLinesAreNoRows(totals[1..]);
    }
  }

  lemma {:induction false} UniversalPlain(t: string)
    requires '\r' !in t
    ensures Universal(t) == t
  {
    if t != [] {
      assert t[0] in t && forall c | c in t[1..] :: c in t;
      UniversalPlain(t[1..]);
    }
  }

  lemma {:induction false} JoinedAvoids(parts: seq<string>, sep: char, c: char)
    requires parts != [] && c != sep && forall p | p in parts :: c !in p
    ensures c !in Joined(parts, sep)
  {
    assert parts[0] in parts && forall p | p in parts[1..] :: p in parts;
    if |parts| > 1 {
      JoinedAvoids(parts[1..], sep, c);
    }
  }

  lemma TableLineIsLine(cells: seq<string>)
    requires cells != [] && forall c | c in cells :: IsLine(c)
    ensures IsLine(TableLine(cells))
  {
    JoinedAvoids(cells, '|', '\n');
    JoinedAvoids(cells, '|', '\r');
  }

  lemma {:induction false} RowLinesAreLines(rows: seq<Row>)
    requires forall r | r in rows :: IsRow(r)
    ensures forall l | l in RowLines(rows) :: IsLine(l)
  {
    if rows != [] {
      var r := rows[0];
      assert r in rows && forall x | x in rows[1..] :: x in rows;
      TableLineIsLine([" " + r.file + " ", " " + r.line + " ", " " + r.name + " ", " " + r.bundled + " "]);
      RowLinesAreLines(rows[1..]);
    }
  }

  lemma {:induction false} TotalLinesAreLines(totals: seq<T.Total>)
    requires forall x | x in totals :: IsCell(x.0)
    ensures forall l | l in TotalLines(totals) :: IsLine(l)
  {
    if totals != [] {
      var x := totals[0];
      assert x in totals && forall y | y in totals[1..] :: y in totals;
      DecimalIsCell(x.1);
      TableLineIsLine([" " + x.0 + " ", " " + Decimal(x.1) + " "]);
      TotalLinesAreLines(totals[1..]);
    }
  }

  ghost predicate Printable(preface: seq<string>, rows: seq<Row>, between: seq<string>, totals: seq<T.Total>) {
    && (forall l | l in preface :: IsProse(l))
    && (forall r | r in rows :: IsRow(r))
    && (forall l | l in between :: IsProse(l))
    && (forall x | x in totals :: IsCell(x.0))
  }

  lemma DocumentLines(preface: seq<string>, rows: seq<Row>, between: seq<string>, totals: seq<T.Total>)
    requires Printable(preface, rows, between, totals)
    ensures forall l | l in Document(preface, rows, between, totals) :: IsLine(l)
  {
    hide TableLine, IsRow, IsCell, RowLines, TotalLines;
    RowLinesAreLines(rows);
    TotalLinesAreLines(totals);
    TableLineIsLine(HEAD_CELLS);
    TableLineIsLine(RULE_CELLS);
    TableLineIsLine(TOTAL_HEAD_CELLS);
    TableLineIsLine(TOTAL_RULE_CELLS);
  }

  lemma DocumentRows(preface: seq<string>, rows: seq<Row>, between: seq<string>, totals: seq<T.Total>)
    requires Printable(preface, rows, between, totals)
    ensures ParseLines(Document(preface, rows, between, totals)) == rows
  {
    assert ParseLine("").None?;
    hide TableLine, ParseLine, IsRow, IsCell;
    var a := preface + HEADS;
    var b := a + RowLines(rows);
    var c := b + between;
    var d := c + TOTAL_HEADS;
    var e := d + TotalLines(totals);
    ProseIsNoRow(preface);
    ProseIsNoRow(between);
    HeadsAreNoRows();
    RowLinesReadBack(rows);
    TotalLinesAreNoRows(totals);
    NoRows([""]);
    ParseAppend(preface, HEADS);
    ParseAppend(a, RowLines(rows));
    ParseAppend(b, between);
    ParseAppend(c, TOTAL_HEADS);
    ParseAppend(d, TotalLines(totals));
    ParseAppend(e, [""]);
  }

  lemma ProseIsNoRow(lines: seq<string>)
    requires forall l | l in lines :: IsProse(l)
    ensures ParseLines(lines) == []
  {
    NoRows(lines);
  }

  /** Reading the written document gives back the rows, and nothing else in it is taken for one. */
  lemma DocumentReadsBack(preface: seq<string>, rows: seq<Row>, between: seq<string>, totals: seq<T.Total>)
    requires Printable(preface, rows, between, totals)
    ensures ParseDocument(Joined(Document(preface, rows, between, totals), '\n')) == rows
  {
    var lines := Document(preface, rows, between, totals);
    DocumentLines(preface, rows, between, totals);
    hide Document, Printable;
    assert lines != [];
    JoinedAvoids(lines, '\n', '\r');
    UniversalPlain(Joined(lines, '\n'));
    SplitJoined(lines, '\n');
    DocumentRows(preface, rows, between, totals);
  }

  lemma {:induction false} StrippedKeepsFirst(l: string)
    requires l != [] && !IsPythonSpace(l[0])
    ensures Stripped(l) != [] && Stripped(l)[0] == l[0]
    decreases |l|
  {
    if |l| > 1 && IsPythonSpace(l[|l| - 1]) {
      StrippedKeepsFirst(l[..|l| - 1]);
    }
  }

  /** A line of prose that starts with a visible character. */
  lemma StartedProse(l: string)
    requires IsLine(l) && l != [] && !IsPythonSpace(l[0]) && l[0] != '|'
    ensures IsProse(l)
  {
    StrippedKeepsFirst(l);
  }

  /** The prose of the written document is prose, and its totals are cells. */
  lemma SourceIsPrintable(sha: string, path: string, rows: seq<Row>, totals: seq<T.Total>)
    requires IsLine(sha) && IsLine(path) && T.AreTotals(totals, Names(rows))
    requires forall r | r in rows :: IsRow(r)
    ensures Printable(Preface(sha, path, |Files(rows)|, |rows|), rows, Between(), totals)
  {
    hide IsRow;
    PrefaceIsProse(sha, path, |Files(rows)|, |rows|);
    BetweenIsProse();
    forall x | x in totals
      ensures IsCell(x.0)
    {
      assert x.0 in Names(rows);
      var k :| 0 <= k < |rows| && Names(rows)[k] == x.0;
      RowCells(rows[k]);
    }
  }

  lemma RowCells(r: Row)
    requires IsRow(r)
    ensures IsCell(r.bundled)
  {
  }

  lemma BlankIsProse()
    ensures IsProse("")
  {
  }

  lemma BetweenIsProse()
    ensures forall l | l in Between() :: IsProse(l)
  {
    assert IsProse(TotalsHead()) by { StartedProse(TotalsHead()); }
    BlankIsProse();
    hide TotalsHead, IsProse;
  }

  lemma TitleIsProse()
    ensures IsProse(Title())
  {
    StartedProse(Title());
  }

  lemma NoteHeadIsProse()
    ensures IsProse(NoteHead())
  {
    StartedProse(NoteHead());
  }

  lemma CopiesAreLine()
    ensures IsLine(Copies())
  {
  }

  lemma ProgressIsLine()
    ensures IsLine(Progress())
  {
  }

  lemma NoteIsProse()
    ensures IsProse(Note())
  {
    CopiesAreLine();
    ProgressIsLine();
    hide Copies, Progress;
    StartedProse(Note());
  }

  lemma FolderIsLine()
    ensures IsLine(Folder())
  {
  }

  lemma ScriptIsLine()
    ensures IsLine(Script())
  {
  }

  lemma ParentIsProse()
    ensures IsProse(Parent())
  {
    FolderIsLine();
    hide Folder;
    StartedProse(Parent());
  }

  lemma DesignIsProse()
    ensures IsProse(Design())
  {
    FolderIsLine();
    hide Folder;
    StartedProse(Design());
  }

  lemma ShaIsProse(sha: string)
    requires IsLine(sha)
    ensures IsProse(ShaLine(sha))
  {
    StartedProse(ShaLine(sha));
  }

  lemma WriteIsProse(path: string)
    requires IsLine(path)
    ensures IsProse(WriteLine(path))
  {
    ScriptIsLine();
    hide Script;
    StartedProse(WriteLine(path));
  }

  lemma CheckIsProse(path: string)
    requires IsLine(path)
    ensures IsProse(CheckLine(path))
  {
    ScriptIsLine();
    hide Script;
    StartedProse(CheckLine(path));
  }

  lemma CountIsProse(files: nat, tables: nat)
    ensures IsProse(CountLine(files, tables))
  {
    DecimalIsCell(files);
    DecimalIsCell(tables);
    StartedProse(CountLine(files, tables));
  }

  lemma ListHeadIsProse()
    ensures IsProse(ListHead())
  {
    StartedProse(ListHead());
  }

  lemma PrefaceIsProse(sha: string, path: string, files: nat, tables: nat)
    requires IsLine(sha) && IsLine(path)
    ensures forall l | l in Preface(sha, path, files, tables) :: IsProse(l)
  {
    hide IsProse, Title, NoteHead, Note, Parent, Design, ShaLine, WriteLine, CheckLine, CountLine, ListHead;
    BlankIsProse();
    TitleIsProse();
    NoteHeadIsProse();
    NoteIsProse();
    ParentIsProse();
    DesignIsProse();
    ShaIsProse(sha);
    WriteIsProse(path);
    CheckIsProse(path);
    CountIsProse(files, tables);
    ListHeadIsProse();
    forall k: nat
      ensures IsProse(PrefaceLine(k, sha, path, files, tables))
    {
    }
  }

  /** Whatever rows are written, the document read back gives just these rows. */
  lemma InventoryReadsBack(sha: string, path: string, rows: seq<Row>, totals: seq<T.Total>)
    requires IsLine(sha) && IsLine(path) && T.AreTotals(totals, Names(rows))
    requires forall r | r in rows :: IsRow(r)
    ensures ParseDocument(Joined(Inventoried(sha, path, rows, totals), '\n')) == rows
  {
    hide ParseDocument, Printable, Document, Preface;
    SourceIsPrintable(sha, path, rows, totals);
    DocumentReadsBack(Preface(sha, path, |Files(rows)|, |rows|), rows, Between(), totals);
  }

  // ----- comparing -----

  type Key = (string, string)

  function KeyOf(r: Row): Key { (r.file, r.bundled) }

  function Count(rows: seq<Row>, k: Key): nat {
    if rows == [] then 0 else (if KeyOf(rows[0]) == k then 1 else 0) + Count(rows[1..], k)
  }

  function Lookup(d: map<Key, nat>, k: Key): nat {
    if k in d then d[k] else 0
  }

  method KeyCounts(rows: seq<Row>) returns (d: map<Key, nat>)
    ensures forall k :: Lookup(d, k) == Count(rows, k)
    ensures forall k :: k in d <==> Count(rows, k) > 0
  {
    d := map[];
    for i := 0 to |rows|
      invariant forall k :: Lookup(d, k) + Count(rows[i..], k) == Count(rows, k)
      invariant forall k | k in d :: d[k] > 0
    {
      assert rows[i..][0] == rows[i] && rows[i..][1..] == rows[i + 1..];
      var k := KeyOf(rows[i]);
      d := d[k := Lookup(d, k) + 1];
    }
  }

  function FileAndName(rows: seq<Row>): (r: seq<Key>)
    ensures |r| == |rows| && forall i :: 0 <= i < |r| ==> r[i] == (rows[i].file, rows[i].bundled)
  {
    seq(|rows|, i requires 0 <= i < |rows| => (rows[i].file, rows[i].bundled))
  }

  /** Counted under a file and a bundled name are exactly the rows that have both. */
  lemma {:induction false} CountedRows(rows: seq<Row>, k: Key)
    ensures Count(rows, k) == multiset(FileAndName(rows))[k]
    decreases |rows|
  {
    if rows != [] {
      CountedRows(rows[1..], k);
      assert FileAndName(rows) == [(rows[0].file, rows[0].bundled)] + FileAndName(rows[1..]);
    }
  }

  /** How many more copies under a key are measured than are recorded. */
  function Growth(measured: seq<Row>, recorded: seq<Row>, k: Key): int {
    Count(measured, k) - Count(recorded, k)
  }

  datatype Verdict = Grown(added: map<Key, int>) | Shrunk(removed: map<Key, int>) | Unchanged

  function ExitCode(v: Verdict): int { if v.Grown? then 1 else 0 }

  /** The comparison fails exactly when some key has gained copies, and names every such key with its gain. */
  method CheckInventory(document: string, measured: seq<Row>) returns (v: Verdict)
    ensures ExitCode(v) == 1 <==> exists k :: Growth(measured, ParseDocument(document), k) > 0
    ensures v.Unchanged? <==> forall k :: Growth(measured, ParseDocument(document), k) == 0
    ensures v.Grown? ==> forall k :: if Growth(measured, ParseDocument(document), k) > 0
                                     then k in v.added && v.added[k] == Growth(measured, ParseDocument(document), k)
                                     else k !in v.added
    ensures v.Shrunk? ==> forall k :: if Growth(measured, ParseDocument(document), k) < 0
                                      then k in v.removed && v.removed[k] == Growth(measured, ParseDocument(document), k)
                                      else k !in v.removed
  {
    var recorded := RowsFromFile(document);
    hide ParseDocument, Count;
    var mk := KeyCounts(measured);
    var rk := KeyCounts(recorded);
    var added, removed := map[], map[];
    var keys := mk.Keys + rk.Keys;
    while keys != {}
      invariant forall k | k in keys :: k !in added && k !in removed
      invariant forall k | k !in keys :: k in added <==> Growth(measured, recorded, k) > 0
      invariant forall k | k !in keys :: k in removed <==> Growth(measured, recorded, k) < 0
      invariant forall k | k in added :: added[k] == Growth(measured, recorded, k)
      invariant forall k | k in removed :: removed[k] == Growth(measured, recorded, k)
      decreases keys
    {
      var k :| k in keys;
      keys := keys - {k};
      var d := Lookup(mk, k) - Lookup(rk, k);
      if d > 0 {
        added := added[k := d];
      } else if d < 0 {
        removed := removed[k := d];
      }
    }
    if added != map[] {
      var k :| k in added;
      assert Growth(measured, recorded, k) > 0;
      return Grown(added);
    }
    if removed != map[] {
      var k :| k in removed;
      assert Growth(measured, recorded, k) < 0;
      return Shrunk(removed);
    }
    return Unchanged;
  }

  /** Against a document just written, copies added since are found with their exact number, and nothing else is. */
  lemma FreshInventory(sha: string, path: string, rows: seq<Row>, totals: seq<T.Total>, extra: seq<Row>, k: Key)
    requires IsLine(sha) && IsLine(path) && T.AreTotals(totals, Names(rows))
    requires forall r | r in rows :: IsRow(r)
    ensures var recorded := ParseDocument(Joined(Inventoried(sha, path, rows, totals), '\n'));
            && Growth(rows, recorded, k) == 0
            && Growth(rows + extra, recorded, k) == Count(extra, k)
  {
    InventoryReadsBack(sha, path, rows, totals);
    hide Inventoried, ParseDocument;
    CountAppend(rows, extra, k);
  }

  lemma {:induction false} CountAppend(p: seq<Row>, q: seq<Row>, k: Key)
    ensures Count(p + q, k) == Count(p, k) + Count(q, k)
  {
    if p == [] {
      assert p + q == q;
    } else {
      assert (p + q)[1..] == p[1..] + q;
      CountAppend(p[1..], q, k);
    }
  }

  // ----- what the bundled name ignores -----

  lemma {:induction false} BraceEndAt(n: string, k: nat, e: nat)
    requires k <= e < |n| && n[e] == '}' && '}' !in n[k..e]
    ensures BraceEnd(n, k) == e
    decreases e - k
  {
    if k < e {
      assert n[k..e][0] == n[k] && n[k + 1..e] == n[k..e][1..];
      BraceEndAt(n, k + 1, e);
    }
  }

  lemma {:induction false} DigitsEndAt(n: string, k: nat, e: nat)
    requires k <= e < |n| && !IsDigit(n[e]) && forall i | k <= i < e :: IsDigit(n[i])
    ensures DigitsEnd(n, k) == e
    decreases e - k
  {
    if k < e {
      DigitsEndAt(n, k + 1, e);
    }
  }

  /** A schema prefix as it is written: a placeholder in braces or a numbered tenant, and a dot. */
  ghost predicate IsPrefix(x: string) {
    || (exists y :: '}' !in y && x == "{" + y + "}.")
    || (exists id :: IsNumber(id) && x == "tenant_" + id + ".")
  }

  lemma {:induction false} BraceFound(n: string, k: nat)
    requires k <= |n|
    ensures var e := BraceEnd(n, k); (e < |n| ==> n[e] == '}') && forall i :: k <= i < e ==> n[i] != '}'
    decreases |n| - k
  {
    if k < |n| && n[k] != '}' {
      BraceFound(n, k + 1);
    }
  }

  lemma {:induction false} DigitsFound(n: string, k: nat)
    requires k <= |n|
    ensures forall i :: k <= i < DigitsEnd(n, k) ==> IsDigit(n[i])
    decreases |n| - k
  {
    if k < |n| && IsDigit(n[k]) {
      DigitsFound(n, k + 1);
    }
  }

  lemma PrefixTaken(n: string)
    requires PrefixLength(n) > 0
    ensures IsPrefix(n[..PrefixLength(n)])
  {
    var m := PrefixLength(n);
    if n[0] == '{' {
      BraceFound(n, 1);
      var y := n[1..m - 2];
      assert n[..m] == "{" + y + "}.";
      assert '}' !in y;
    } else {
      var id := n[7..m - 1];
      DigitsFound(n, 7);
      assert n[..7] == TENANT && |TENANT| == 7;
      assert n[..m] == n[..7] + id + ".";
      assert IsNumber(id);
    }
  }

  lemma PrefixRead(x: string, rest: string)
    requires IsPrefix(x)
    ensures PrefixLength(x + rest) == |x| > 0
  {
    if y :| '}' !in y && x == "{" + y + "}." {
      PlaceholderRead(x, y, rest);
    } else {
      var id :| IsNumber(id) && x == "tenant_" + id + ".";
      TenantRead(x, id, rest);
    }
  }

  lemma PlaceholderRead(x: string, y: string, rest: string)
    requires '}' !in y && x == "{" + y + "}."
    ensures PrefixLength(x + rest) == |x|
  {
    var n, e := x + rest, 1 + |y|;
    assert n[0] == x[0] == '{' && n[e] == x[e] == '}' && n[e + 1] == x[e + 1] == '.';
    assert n[1..e] == x[1..e] == y;
    BraceEndAt(n, 1, e);
  }

  lemma TenantRead(x: string, id: string, rest: string)
    requires IsNumber(id) && x == "tenant_" + id + "."
    ensures PrefixLength(x + rest) == |x|
  {
    var n, e := x + rest, 7 + |id|;
    assert n[..7] == x[..7] == TENANT && TENANT <= n && n[0] == 't';
    assert forall i | 7 <= i < e :: n[i] == x[i] == id[i - 7] && id[i - 7] in id;
    assert n[e] == x[e] == '.';
    DigitsEndAt(n, 7, e);
  }

  /** Taken off a name are exactly such prefixes, one after the other, until none is left. */
  lemma {:induction false} OnlyPrefixes(n: string) returns (prefixes: seq<string>)
    ensures (forall x | x in prefixes :: IsPrefix(x)) && n == Concat(prefixes) + Normalized(n)
    ensures forall x, rest :: Normalized(n) == x + rest ==> !IsPrefix(x)
    decreases |n|
  {
    hide PrefixLength, IsPrefix;
    var m := PrefixLength(n);
    if m == 0 {
      prefixes := [];
    } else {
      PrefixTaken(n);
      var others := OnlyPrefixes(n[m..]);
      prefixes := [n[..m]] + others;
      ConcatFirst(n, m, others, Normalized(n));
    }
    NoPrefixLeft(Normalized(n));
  }

  lemma ConcatFirst(n: string, m: nat, others: seq<string>, rest: string)
    requires m <= |n| && n[m..] == Concat(others) + rest
    ensures n == Concat([n[..m]] + others) + rest
  {
    var all := [n[..m]] + others;
    assert all[1..] == others && all[0] == n[..m];
    assert n == n[..m] + (Concat(others) + rest);
  }

  lemma NoPrefixLeft(n: string)
    requires PrefixLength(n) == 0
    ensures forall x, rest :: n == x + rest ==> !IsPrefix(x)
  {
    hide PrefixLength;
    forall x, rest | n == x + rest
      ensures !IsPrefix(x)
    {
      if IsPrefix(x) {
        PrefixRead(x, rest);
      }
    }
  }

  function Concat(parts: seq<string>): string {
    if parts == [] then "" else parts[0] + Concat(parts[1..])
  }

  /** A schema given as a placeholder in braces does not change the bundled name. */
  lemma PlaceholderIgnored(x: string, n: string)
    requires '}' !in x
    ensures Normalized("{" + x + "}." + n) == Normalized(n)
  {
    var m := "{" + x + "}." + n;
    assert m[1..1 + |x|] == x;
    BraceEndAt(m, 1, 1 + |x|);
    assert m[2 + |x|] == '.' && m[3 + |x|..] == n;
  }

  /** A numbered tenant schema does not change the bundled name. */
  lemma TenantIgnored(id: string, n: string)
    requires IsNumber(id)
    ensures Normalized("tenant_" + id + "." + n) == Normalized(n)
  {
    var m := "tenant_" + id + "." + n;
    assert m[..7] == TENANT && TENANT <= m && m[0] == 't';
    assert forall i | 7 <= i < 7 + |id| :: m[i] == id[i - 7] && id[i - 7] in id;
    assert m[7 + |id|] == '.';
    DigitsEndAt(m, 7, 7 + |id|);
    assert m[8 + |id|..] == n;
  }

  /** The public schema is kept: it may name another table. */
  lemma PublicKept(n: string)
    ensures Normalized("public." + n) == "public." + n
  {
    assert ("public." + n)[0] == 'p' && TENANT[0] == 't';
  }
}
