/**
 * The help command: a page of the (command or alias, usage) rows of every
 * registered command, sorted by name and then usage, seven to a page; or
 * the aliases, description and usages of one command. What the command
 * framework prints for a command's arguments is an input: each registration
 * carries its usage strings.
 */
module Help {
  import opened Wrappers
  import opened Vectors
  import opened History

  /** A registered command as help sees it. */
  datatype CmdReg = CmdReg(name: string, aliases: Option<seq<string>>, description: string, usages: seq<string>)

  /** One line of the command list: a name (the command's or an alias) and one usage. */
  datatype Row = Row(name: string, usage: string)

  const PageSize := 7

  // ---- String order ----

  /** JavaScript's `<` on strings: lexicographic by character. */
  function StrLess(a: string, b: string): bool
  {
    if |a| == 0 then |b| > 0
    else if |b| == 0 then false
    else if a[0] < b[0] then true
    else if a[0] > b[0] then false
    else StrLess(a[1..], b[1..])
  }

  lemma {:induction false} StrLessIrreflexive(a: string)
    ensures !StrLess(a, a)
  {
    if |a| > 0 {
      StrLessIrreflexive(a[1..]);
    }
  }

  lemma {:induction false} StrLessTotal(a: string, b: string)
    ensures a == b || StrLess(a, b) || StrLess(b, a)
  {
    if |a| > 0 && |b| > 0 && a[0] == b[0] {
      StrLessTotal(a[1..], b[1..]);
      if a[1..] == b[1..] {
        assert a == [a[0]] + a[1..] && b == [b[0]] + b[1..];
      }
    }
  }

  lemma {:induction false} StrLessTransitive(a: string, b: string, c: string)
    requires StrLess(a, b) && StrLess(b, c)
    ensures StrLess(a, c)
  {
    if |a| > 0 && a[0] == b[0] && b[0] == c[0] {
      StrLessTransitive(a[1..], b[1..], c[1..]);
    }
  }

  // ---- Row order ----

  /** The sort's comparator: by name, then by usage; it never answers 0. */
  function Compare(a: Row, b: Row): int
  {
    if StrLess(a.name, b.name) then -1
    else if StrLess(b.name, a.name) then 1
    else if StrLess(a.usage, b.usage) then -1
    else 1
  }

  /** The order the comparator means: lexicographic on (name, usage). */
  predicate RowLess(a: Row, b: Row)
  {
    StrLess(a.name, b.name) || (a.name == b.name && StrLess(a.usage, b.usage))
  }

  /** The comparator puts `a` first exactly when `a` is smaller, and never reports a tie. */
  lemma CompareIsRowOrder(a: Row, b: Row)
    ensures Compare(a, b) == -1 <==> RowLess(a, b)
    ensures Compare(a, b) == -1 || Compare(a, b) == 1
  {
    StrLessTotal(a.name, b.name);
    if StrLess(a.name, b.name) {
      StrLessIrreflexive(a.name);
    }
  }

  lemma RowLessNegTransitive(a: Row, b: Row, c: Row)
    requires !RowLess(b, a) && !RowLess(c, b)
    ensures !RowLess(c, a)
  {
    StrLessTotal(a.name, b.name);
    StrLessTotal(b.name, c.name);
    StrLessTotal(a.usage, b.usage);
    StrLessTotal(b.usage, c.usage);
    if RowLess(c, a) {
      if StrLess(c.name, a.name) {
        if StrLess(a.name, b.name) {
          StrLessTransitive(c.name, a.name, b.name);
        } else if StrLess(b.name, c.name) {
          StrLessTransitive(b.name, c.name, a.name);
        }
      } else {
        if StrLess(a.usage, b.usage) {
          StrLessTransitive(c.usage, a.usage, b.usage);
        } else if StrLess(b.usage, c.usage) {
          StrLessTransitive(b.usage, c.usage, a.usage);
        }
      }
    }
  }

  lemma RowLessTotal(a: Row, b: Row)
    ensures a == b || RowLess(a, b) || RowLess(b, a)
  {
    StrLessTotal(a.name, b.name);
    StrLessTotal(a.usage, b.usage);
  }

  /** No row comes after a smaller one. */
  ghost predicate Sorted(s: seq<Row>)
  {
    forall k, l :: 0 <= k < l < |s| ==> !RowLess(s[l], s[k])
  }

  // ---- Row flattening ----

  function AliasRows(aliases: seq<string>, usage: string): (rows: seq<Row>)
    ensures |rows| == |aliases|
    ensures forall k :: 0 <= k < |aliases| ==> rows[k] == Row(aliases[k], usage)
  {
    if aliases == [] then [] else AliasRows(aliases[..|aliases| - 1], usage) + [Row(aliases[|aliases| - 1], usage)]
  }

  /** The rows one usage of a command yields: the command's own, then one per alias. */
  function UsageRows(c: CmdReg, usage: string): seq<Row>
  {
    [Row(c.name, usage)] + if c.aliases.Some? then AliasRows(c.aliases.value, usage) else []
  }

  function CmdRows(c: CmdReg, usages: seq<string>): seq<Row>
  {
    if usages == [] then [] else CmdRows(c, usages[..|usages| - 1]) + UsageRows(c, usages[|usages| - 1])
  }

  /** The unsorted rows of a command list, in the order the loops push them. */
  function Rows(cmds: seq<CmdReg>): seq<Row>
  {
    if cmds == [] then [] else Rows(cmds[..|cmds| - 1]) + CmdRows(cmds[|cmds| - 1], cmds[|cmds| - 1].usages)
  }

  function AliasCount(c: CmdReg): nat
  {
    if c.aliases.Some? then |c.aliases.value| else 0
  }

  function RowTotal(cmds: seq<CmdReg>): nat
  {
    if cmds == [] then 0 else RowTotal(cmds[..|cmds| - 1]) + |cmds[|cmds| - 1].usages| * (1 + AliasCount(cmds[|cmds| - 1]))
  }

  /** A row a command yields: one of its usages under its name or one of its aliases. */
  predicate Yields(c: CmdReg, r: Row)
  {
    r.usage in c.usages && (r.name == c.name || (c.aliases.Some? && r.name in c.aliases.value))
  }

  lemma {:induction false} CmdRowsCount(c: CmdReg, usages: seq<string>)
    ensures |CmdRows(c, usages)| == |usages| * (1 + AliasCount(c))
  {
    if usages != [] {
      var n := |usages| - 1;
      var w := 1 + AliasCount(c);
      CmdRowsCount(c, usages[..n]);
      assert |UsageRows(c, usages[n])| == w;
      assert n * w + w == (n + 1) * w;
    }
  }

  /** Every usage yields one row for the name and one per alias. */
  lemma {:induction false} RowsCount(cmds: seq<CmdReg>)
    ensures |Rows(cmds)| == RowTotal(cmds)
  {
    if cmds != [] {
      RowsCount(cmds[..|cmds| - 1]);
      CmdRowsCount(cmds[|cmds| - 1], cmds[|cmds| - 1].usages);
    }
  }

  lemma {:induction false} CmdRowsMembers(c: CmdReg, usages: seq<string>, r: Row)
    ensures r in CmdRows(c, usages) <==>
      r.usage in usages && (r.name == c.name || (c.aliases.Some? && r.name in c.aliases.value))
  {
    if usages != [] {
      var n := |usages| - 1;
      CmdRowsMembers(c, usages[..n], r);
      assert usages == usages[..n] + [usages[n]];
      if c.aliases.Some? && r.usage == usages[n] && r.name in c.aliases.value {
        var k :| 0 <= k < |c.aliases.value| && c.aliases.value[k] == r.name;
        assert AliasRows(c.aliases.value, r.usage)[k] == r;
      }
    }
  }

  /** A row is listed exactly when some command yields it. */
  lemma {:induction false} RowsMembers(cmds: seq<CmdReg>, r: Row)
    ensures r in Rows(cmds) <==> exists i :: 0 <= i < |cmds| && Yields(cmds[i], r)
  {
    if cmds != [] {
      var n := |cmds| - 1;
      RowsMembers(cmds[..n], r);
      CmdRowsMembers(cmds[n], cmds[n].usages, r);
      if exists i :: 0 <= i < |cmds| && Yields(cmds[i], r) {
        var i :| 0 <= i < |cmds| && Yields(cmds[i], r);
        if i < n {
          assert cmds[..n][i] == cmds[i];
        }
      }
      if exists i :: 0 <= i < n && Yields(cmds[..n][i], r) {
        var i :| 0 <= i < n && Yields(cmds[..n][i], r);
        assert cmds[i] == cmds[..n][i];
      }
    }
  }

  method AddAliasRows(aliases: seq<string>, usage: string, rows: seq<Row>) returns (rows': seq<Row>)
    ensures rows' == rows + AliasRows(aliases, usage)
  {
    rows' := rows;
    for k := 0 to |aliases|
      invariant rows' == rows + AliasRows(aliases[..k], usage)
    {
      assert aliases[..k + 1][..k] == aliases[..k];
      rows' := rows' + [Row(aliases[k], usage)];
    }
    assert aliases[..|aliases|] == aliases;
  }

  method AddCommandRows(c: CmdReg, rows: seq<Row>) returns (rows': seq<Row>)
    ensures rows' == rows + CmdRows(c, c.usages)
  {
    rows' := rows;
    for k := 0 to |c.usages|
      invariant rows' == rows + CmdRows(c, c.usages[..k])
    {
      var usage := c.usages[k];
      assert c.usages[..k + 1][..k] == c.usages[..k];
      rows' := rows' + [Row(c.name, usage)];
      if c.aliases.Some? {
        rows' := AddAliasRows(c.aliases.value, usage, rows');
      }
    }
    assert c.usages[..|c.usages|] == c.usages;
  }

  /** The nested loops that push a row per command or alias and usage. */
  method BuildRows(cmds: seq<CmdReg>) returns (rows: seq<Row>)
    ensures rows == Rows(cmds)
  {
    rows := [];
    for i := 0 to |cmds|
      invariant rows == Rows(cmds[..i])
    {
      assert cmds[..i + 1][..i] == cmds[..i];
      rows := AddCommandRows(cmds[i], rows);
    }
    assert cmds[..|cmds|] == cmds;
  }

  // ---- Sorting ----

  /**
   * Insertion of a[i] into the sorted prefix a[..i], by swapping it down
   * past every larger row.
   */
  method InsertRow(a: array<Row>, i: nat)
    requires i < a.Length && Sorted(a[..i])
    modifies a
    ensures Sorted(a[..i + 1])
    ensures multiset(a[..]) == multiset(old(a[..]))
    ensures a[i + 1..] == old(a[i + 1..])
  {
    var j := i;
    while j > 0 && RowLess(a[j], a[j - 1])
      invariant 0 <= j <= i
      invariant forall k, l :: 0 <= k < l <= i && k != j && l != j ==> !RowLess(a[l], a[k])
      invariant forall l :: j < l <= i ==> RowLess(a[j], a[l])
      invariant multiset(a[..]) == multiset(old(a[..]))
      invariant a[i + 1..] == old(a[i + 1..])
    {
      ghost var before := a[..];
      a[j - 1], a[j] := a[j], a[j - 1];
      SwapStep(before, a[..], i, j);
      j := j - 1;
    }
    InsertDone(a[..], i, j);
  }

  /** Swapping the moving row with a larger row before it keeps the insertion invariants, one place down. */
  lemma SwapStep(s: seq<Row>, t: seq<Row>, i: nat, j: nat)
    requires 0 < j <= i < |s|
    requires t == s[j - 1 := s[j]][j := s[j - 1]]
    requires RowLess(s[j], s[j - 1])
    requires forall k, l :: 0 <= k < l <= i && k != j && l != j ==> !RowLess(s[l], s[k])
    requires forall l :: j < l <= i ==> RowLess(s[j], s[l])
    ensures forall k, l :: 0 <= k < l <= i && k != j - 1 && l != j - 1 ==> !RowLess(t[l], t[k])
    ensures forall l :: j - 1 < l <= i ==> RowLess(t[j - 1], t[l])
  {
  }

  /** The row stopped at `j` is no smaller than the one before it, so the prefix is sorted. */
  lemma InsertDone(s: seq<Row>, i: nat, j: nat)
    requires j <= i < |s|
    requires forall k, l :: 0 <= k < l <= i && k != j && l != j ==> !RowLess(s[l], s[k])
    requires forall l :: j < l <= i ==> RowLess(s[j], s[l])
    requires j == 0 || !RowLess(s[j], s[j - 1])
    ensures Sorted(s[..i + 1])
  {
    forall k, l | 0 <= k < l <= i
      ensures !RowLess(s[l], s[k])
    {
      if l == j {
        if k != j - 1 {
          RowLessNegTransitive(s[k], s[j - 1], s[j]);
        }
      } else if k == j {
        RowLessAsym(s[j], s[l]);
      }
    }
  }

  lemma RowLessAsym(a: Row, b: Row)
    requires RowLess(a, b)
    ensures !RowLess(b, a)
  {
    if StrLess(a.name, b.name) {
      if StrLess(b.name, a.name) {
        StrLessTransitive(a.name, b.name, a.name);
        StrLessIrreflexive(a.name);
      }
      if a.name == b.name {
        StrLessIrreflexive(a.name);
      }
    } else if StrLess(b.usage, a.usage) {
      StrLessTransitive(a.usage, b.usage, a.usage);
      StrLessIrreflexive(a.usage);
    }
  }

  /** The in-place sort: a sorted permutation of the rows. */
  method SortRows(a: array<Row>)
    modifies a
    ensures Sorted(a[..])
    ensures multiset(a[..]) == multiset(old(a[..]))
  {
    for i := 0 to a.Length
      invariant Sorted(a[..i])
      invariant multiset(a[..]) == multiset(old(a[..]))
    {
      InsertRow(a, i);
    }
  }

  // ---- Pages ----

  /** `Math.ceil(n / 7)`. */
  function TotalPages(n: nat): nat
  {
    (n + PageSize - 1) / PageSize
  }

  /** The page asked for, at least 1 and at most the last page. */
  function ShownPage(arg: int, n: nat): int
  {
    Min(Max(arg, 1), TotalPages(n))
  }

  /** The index of the first row of the shown page. */
  function PageOff(arg: int, n: nat): int
  {
    (ShownPage(arg, n) - 1) * PageSize
  }

  /** One past the index of the last row of the shown page. */
  function PageEnd(arg: int, n: nat): int
  {
    Min(PageOff(arg, n) + PageSize, n)
  }

  /** The page count is the ceiling of rows over seven. */
  lemma TotalPagesIsCeiling(n: nat)
    ensures TotalPages(n) * PageSize >= n
    ensures n > 0 ==> (TotalPages(n) - 1) * PageSize < n
    ensures TotalPages(n) == 0 <==> n == 0
  {
  }

  /**
   * With at least one row, the shown page is a real page, its window starts
   * on a multiple of seven inside the rows and holds one to seven of them,
   * and a page number already in range is shown as asked.
   */
  lemma PageWindow(arg: int, n: nat)
    requires n > 0
    ensures 1 <= ShownPage(arg, n) <= TotalPages(n)
    ensures 0 <= PageOff(arg, n) < n && PageOff(arg, n) % PageSize == 0
    ensures PageOff(arg, n) / PageSize + 1 == ShownPage(arg, n)
    ensures PageOff(arg, n) < PageEnd(arg, n) <= PageOff(arg, n) + PageSize
    ensures 1 <= arg <= TotalPages(n) ==> ShownPage(arg, n) == arg
  {
    TotalPagesIsCeiling(n);
  }

  /** The pages partition the rows: row k is listed exactly on page k / 7 + 1. */
  lemma RowOnOnePage(arg: int, n: nat, k: nat)
    requires k < n
    ensures PageOff(arg, n) <= k < PageEnd(arg, n) <==> ShownPage(arg, n) == k / PageSize + 1
  {
    PageWindow(arg, n);
    var p := ShownPage(arg, n);
    if p == k / PageSize + 1 {
      assert PageOff(arg, n) == k / PageSize * PageSize;
    }
  }

  function Line(r: Row, prefix: string): RawPart
  {
    Text("\n" + prefix + r.name + " " + r.usage)
  }

  function Lines(rows: seq<Row>, prefix: string): (lines: RawText)
    ensures |lines| == |rows|
  {
    if rows == [] then [] else Lines(rows[..|rows| - 1], prefix) + [Line(rows[|rows| - 1], prefix)]
  }

  function Header(shown: int, total: nat): RawText
  {
    [Text("\U{A7}2"), Translate("worldedit.help.header", [IntToString(shown), NatToString(total)]), Text("\U{A7}r")]
  }

  /** The page the list view shows of the sorted rows. */
  function PageText(sorted: seq<Row>, arg: int, prefix: string): RawText
    requires |sorted| > 0
  {
    PageWindow(arg, |sorted|);
    Header(ShownPage(arg, |sorted|), TotalPages(|sorted|))
    + Lines(sorted[PageOff(arg, |sorted|)..PageEnd(arg, |sorted|)], prefix)
  }

  /**
   * The list view. With no rows at all the shown page is 0, the window
   * starts at row -7, and reading that row throws: the answer is None.
   */
  method ListPage(cmds: seq<CmdReg>, arg: int, prefix: string) returns (msg: Option<RawText>, ghost sorted: seq<Row>)
    ensures Sorted(sorted) && multiset(sorted) == multiset(Rows(cmds))
    ensures msg.None? <==> RowTotal(cmds) == 0
    ensures msg.Some? ==> |sorted| > 0 && msg.value == PageText(sorted, arg, prefix)
  {
    var rows := BuildRows(cmds);
    RowsCount(cmds);
    var a := new Row[|rows|](k requires 0 <= k < |rows| => rows[k]);
    assert a[..] == rows;
    SortRows(a);
    sorted := a[..];
    assert |sorted| == |rows| by {
      assert |multiset(sorted)| == |multiset(rows)|;
    }
    msg := ShowPage(a[..], arg, prefix);
  }

  /** The window of the sorted rows the page shows, under its header. */
  method ShowPage(sorted: seq<Row>, arg: int, prefix: string) returns (msg: Option<RawText>)
    ensures msg.None? <==> |sorted| == 0
    ensures msg.Some? ==> |sorted| > 0 && msg.value == PageText(sorted, arg, prefix)
  {
    var total := (|sorted| + PageSize - 1) / PageSize;
    var page := Max(arg, 1);
    var pageOff := (Min(page, total) - 1) * PageSize;
    if pageOff < 0 {
      return None;
    }
    assert total == TotalPages(|sorted|) && pageOff == PageOff(arg, |sorted|);
    PageWindow(arg, |sorted|);
    var end := Min(pageOff + PageSize, |sorted|);
    var m := AppendLines(sorted, pageOff, end, prefix, Header(pageOff / PageSize + 1, total));
    msg := Some(m);
  }

  /** The loop that appends one line per row of the window. */
  method AppendLines(rows: seq<Row>, from: nat, to: nat, prefix: string, m: RawText) returns (m': RawText)
    requires from <= to <= |rows|
    ensures m' == m + Lines(rows[from..to], prefix)
  {
    m' := m;
    for i := from to to
      invariant m' == m + Lines(rows[from..i], prefix)
    {
      assert rows[from..i + 1][..i - from] == rows[from..i];
      m' := m' + [Line(rows[i], prefix)];
    }
  }

  // ---- One command ----

  /** `Array.prototype.join`. */
  function Join(xs: seq<string>, sep: string): string
  {
    if xs == [] then "" else if |xs| == 1 then xs[0] else Join(xs[..|xs| - 1], sep) + sep + xs[|xs| - 1]
  }

  function UsageLine(name: string, usage: string, prefix: string): string
  {
    "\n- " + prefix + name + " " + usage
  }

  function UsageLines(name: string, usages: seq<string>, prefix: string): string
  {
    if usages == [] then "" else UsageLines(name, usages[..|usages| - 1], prefix) + UsageLine(name, usages[|usages| - 1], prefix)
  }

  /** The usage text is one line per usage, in order: it splits along any split of the usages. */
  lemma {:induction false} UsageLinesSplit(name: string, a: seq<string>, b: seq<string>, prefix: string)
    ensures UsageLines(name, a + b, prefix) == UsageLines(name, a, prefix) + UsageLines(name, b, prefix)
    decreases |b|
  {
    if b == [] {
      assert a + b == a;
    } else {
      var n := |b| - 1;
      var last := UsageLine(name, b[n], prefix);
      UsageLinesSplit(name, a, b[..n], prefix);
      assert (a + b)[..|a + b| - 1] == a + b[..n];
      assert (a + b)[|a + b| - 1] == b[n];
      assert UsageLines(name, a + b, prefix) == UsageLines(name, a + b[..n], prefix) + last;
      assert UsageLines(name, b, prefix) == UsageLines(name, b[..n], prefix) + last;
    }
  }

  method UsageList(name: string, usages: seq<string>, prefix: string) returns (s: string)
    ensures s == UsageLines(name, usages, prefix)
    ensures |usages| == 1 ==> s == UsageLine(name, usages[0], prefix)
  {
    s := "";
    for k := 0 to |usages|
      invariant s == UsageLines(name, usages[..k], prefix)
    {
      assert usages[..k + 1][..k] == usages[..k];
      s := s + UsageLine(name, usages[k], prefix);
    }
    assert usages[..|usages|] == usages;
  }

  /**
   * The single-command view: an aliases line when the command has an alias
   * list (even an empty one), else the name and a colon; the description
   * when it is not empty; then the usage lines.
   */
  method ShowCommand(c: CmdReg, prefix: string) returns (info: RawText)
    ensures |info| == (if c.description != "" then 6 else 3)
    ensures info[0] == Text("\n\U{A7}e")
    ensures c.aliases.Some? ==> info[1] == Translate("commands.help.command.aliases", [c.name, Join(c.aliases.value, ", ")])
    ensures c.aliases.None? ==> info[1] == Text(c.name + ":")
    ensures c.description != "" ==> info[2..5] == [Text("\n"), Translate(c.description, []), Text("\n\U{A7}r")]
    ensures info[|info| - 1] == Translate("commands.generic.usage", [UsageLines(c.name, c.usages, prefix)])
  {
    info := [Text("\n\U{A7}e")];
    if c.aliases.Some? {
      info := info + [Translate("commands.help.command.aliases", [c.name, Join(c.aliases.value, ", ")])];
    } else {
      info := info + [Text(c.name + ":")];
    }
    if c.description != "" {
      info := info + [Text("\n"), Translate(c.description, []), Text("\n\U{A7}r")];
    }
    var usages := UsageList(c.name, c.usages, prefix);
    info := info + [Translate("commands.generic.usage", [usages])];
  }
}
