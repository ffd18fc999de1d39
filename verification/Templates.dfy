/** Finding the end of a JavaScript template literal, with the expressions,
    strings, comments and templates nested in it. */
module Templates {
  import opened Wrappers
  import opened SqlLexis

  /** Where the characters of a string quoted with q stop: at q, at a line break or past the end. */
  function StringStop(c: string, j: nat, q: char): (r: nat)
    ensures j <= r && (r < |c| ==> c[r] == q || c[r] == '\n')
    decreases |c| - j
  {
    if j >= |c| || c[j] == q || c[j] == '\n' then j
    else StringStop(c, if c[j] == '\\' then j + 2 else j + 1, q)
  }

  /** Behind the brace that closes `depth` open ones, reading an expression from i. */
  function ExprEnd(c: string, i: nat, depth: nat): (r: Option<nat>)
    requires depth > 0
    ensures r.Some? ==> i < r.value <= |c|
    decreases |c| - i, 0
  {
    if i >= |c| then None
    else if IsQuote(c[i]) then
      var j := StringStop(c, i + 1, c[i]);
      if j < |c| && c[j] == c[i] then ExprEnd(c, j + 1, depth) else None
    else if c[i] == '`' then
      var end := TemplateEnd(c, i);
      if end.Some? then ExprEnd(c, end.value, depth) else None
    else if c[i] == '/' && i + 1 < |c| && c[i + 1] == '*' then
      var end := FirstOccurrence(c, "*/", i + 2, |c|);
      if end.Some? then ExprEnd(c, end.value + 2, depth) else None
    else if c[i] == '/' && i + 1 < |c| && c[i + 1] == '/' then
      var end := FirstOccurrence(c, "\n", i + 1, |c|);
      if end.Some? then ExprEnd(c, end.value, depth) else None
    else if c[i] == '{' then ExprEnd(c, i + 1, depth + 1)
    else if c[i] == '}' then (if depth == 1 then Some(i + 1) else ExprEnd(c, i + 1, depth - 1))
    else ExprEnd(c, i + 1, depth)
  }

  /** Behind the backtick that closes a template, reading its text from i. */
  function TextEnd(c: string, i: nat): (r: Option<nat>)
    ensures r.Some? ==> i < r.value <= |c|
    decreases |c| - i, 1
  {
    if i >= |c| then None
    else if c[i] == '\\' then TextEnd(c, i + 2)
    else if c[i] == '`' then Some(i + 1)
    else if c[i] == '$' && i + 1 < |c| && c[i + 1] == '{' then
      var end := ExprEnd(c, i + 2, 1);
      if end.Some? then TextEnd(c, end.value) else None
    else TextEnd(c, i + 1)
  }

  function TemplateEnd(c: string, start: nat): (r: Option<nat>)
    requires start < |c|
    ensures r.Some? ==> start + 1 < r.value <= |c|
    decreases |c| - start - 1, 2
  {
    TextEnd(c, start + 1)
  }

  /** Reads an expression; calls the reader of templates for nested ones. */
  method SkipTemplateExpr(c: string, from: nat) returns (r: Option<nat>)
    ensures r == ExprEnd(c, from, 1)
    decreases |c| - from, 0
  {
    hide FirstOccurrence, TextEnd;
    var depth: nat, i: nat := 1, from;
    while i < |c|
      invariant from <= i && depth > 0
      invariant ExprEnd(c, from, 1) == ExprEnd(c, i, depth)
      decreases |c| - i
    {
      var ch := c[i];
      if IsQuote(ch) {
        var j := SkipString(c, i + 1, ch);
        if j >= |c| || c[j] != ch {
          return None;
        }
        i := j + 1;
      } else if ch == '`' {
        var end := FindTemplateEnd(c, i);
        if end.None? {
          return None;
        }
        i := end.value;
      } else if ch == '/' && i + 1 < |c| && c[i + 1] == '*' {
        var end := FirstOccurrence(c, "*/", i + 2, |c|);
        if end.None? {
          return None;
        }
        i := end.value + 2;
      } else if ch == '/' && i + 1 < |c| && c[i + 1] == '/' {
        var end := FirstOccurrence(c, "\n", i + 1, |c|);
        if end.None? {
          return None;
        }
        i := end.value;
      } else if ch == '{' {
        depth, i := depth + 1, i + 1;
      } else if ch == '}' {
        if depth == 1 {
          return Some(i + 1);
        }
        depth, i := depth - 1, i + 1;
      } else {
        i := i + 1;
      }
    }
    return None;
  }

  method SkipString(c: string, from: nat, q: char) returns (j: nat)
    ensures j == StringStop(c, from, q)
  {
    j := from;
    while j < |c| && c[j] != q && c[j] != '\n'
      invariant from <= j && StringStop(c, from, q) == StringStop(c, j, q)
      decreases |c| - j
    {
      j := j + (if c[j] == '\\' then 2 else 1);
    }
  }

  method FindTemplateEnd(c: string, start: nat) returns (r: Option<nat>)
    requires start < |c|
    ensures r == TemplateEnd(c, start)
    decreases |c| - start - 1, 1
  {
    var i := start + 1;
    while i < |c|
      invariant start < i
      invariant TemplateEnd(c, start) == TextEnd(c, i)
      decreases |c| - i
    {
      var ch := c[i];
      if ch == '\\' {
        i := i + 2;
      } else if ch == '`' {
        return Some(i + 1);
      } else if ch == '$' && i + 1 < |c| && c[i + 1] == '{' {
        var end := SkipTemplateExpr(c, i + 2);
        if end.None? {
          return None;
        }
        i := end.value;
      } else {
        i := i + 1;
      }
    }
    return None;
  }
}
