/** Line information from a lookup table that is built once per unit, kept in a bounded cache and filled
    in lazily (src/symbols/dwarf/dwarf_resolver.cpp, cache mode prioritize_speed). */
module LineTables {
  import opened Wrappers
  import opened SortedSearch
  import opened LruCaches
  import opened Words

  /** A row of a line table, as libdwarf reports it. */
  datatype Row = Row(addr: nat, number: nat, column: nat, path: string)

  /** A unit's line program. */
  datatype UnitLines = UnitLines(version: nat, rows: seq<Row>)

  datatype LineEntry = LineEntry(
    low: nat, line: Row, path: Option<string>, lineNumber: Option<nat>, columnNumber: Option<nat>)

  datatype LineTable = LineTable(version: nat, entries: seq<LineEntry>)

  datatype LineInfo = LineInfo(line: nat, column: nat, filename: string)

  function Low(e: LineEntry): nat {
    e.low
  }

  function InfoOf(r: Row): LineInfo {
    LineInfo(Uint32(r.number), Uint32(r.column), r.path)
  }

  /** What the frame becomes. */
  function Reported(r: Option<Row>, frame: LineInfo): LineInfo {
    if r.Some? then InfoOf(r.value) else frame
  }

  // ---------------------------------------------------------------- which row answers

  /** The last row of a run of rows with the same address. */
  ghost predicate IsRunEnd(rows: seq<Row>, k: int) {
    0 <= k < |rows| && (k + 1 == |rows| || rows[k + 1].addr != rows[k].addr)
  }

  /** A run end of greatest address at most the pc. */
  ghost predicate Answers(rows: seq<Row>, pc: nat, r: Option<Row>) {
    match r
    case None => forall k :: 0 <= k < |rows| ==> rows[k].addr > pc
    case Some(row) =>
      && (exists k :: IsRunEnd(rows, k) && rows[k] == row)
      && row.addr <= pc
      && forall k :: 0 <= k < |rows| && rows[k].addr <= pc ==> rows[k].addr <= row.addr
  }

  ghost predicate Ascending(rows: seq<Row>) {
    forall i, j :: 0 <= i < j < |rows| ==> rows[i].addr <= rows[j].addr
  }

  /** The last row, in program order, whose address is at most the pc. */
  ghost function LastRow(rows: seq<Row>, pc: nat): Option<Row> {
    if rows == [] then None
    else if rows[|rows| - 1].addr <= pc then Some(rows[|rows| - 1])
    else LastRow(rows[..|rows| - 1], pc)
  }

  lemma {:induction false} LastRowSplits(rows: seq<Row>, pc: nat, k: nat)
    requires k < |rows| && rows[k].addr <= pc && forall j :: k < j < |rows| ==> rows[j].addr > pc
    ensures LastRow(rows, pc) == Some(rows[k])
  {
    if k < |rows| - 1 {
      LastRowSplits(rows[..|rows| - 1], pc, k);
    }
  }

  lemma {:induction false} NoRow(rows: seq<Row>, pc: nat)
    requires forall k :: 0 <= k < |rows| ==> rows[k].addr > pc
    ensures LastRow(rows, pc) == None
  {
    if rows != [] {
      NoRow(rows[..|rows| - 1], pc);
    }
  }

  /** For rows in ascending order there is one answer: the last row whose address is at most the pc. */
  lemma AscendingAnswer(rows: seq<Row>, pc: nat, r: Option<Row>)
    requires Ascending(rows) && Answers(rows, pc, r)
    ensures r == LastRow(rows, pc)
  {
    if r.None? {
      NoRow(rows, pc);
    } else {
      var k :| IsRunEnd(rows, k) && rows[k] == r.value;
      forall j | k < j < |rows|
        ensures rows[j].addr > pc
      {
        BehindRunEnd(rows, k, j);
      }
      hide *;
      LastRowSplits(rows, pc, k);
    }
  }

  lemma BehindRunEnd(rows: seq<Row>, k: nat, j: nat)
    requires Ascending(rows) && IsRunEnd(rows, k) && k < j < |rows|
    ensures rows[j].addr > rows[k].addr
  {
    assert rows[k].addr <= rows[k + 1].addr;
  }

  // ---------------------------------------------------------------- building the table

  /** The last row of each run of rows with the same address, in program order. */
  ghost function RunEnds(rows: seq<Row>): seq<Row> {
    if rows == [] then []
    else (if |rows| > 1 && rows[1].addr == rows[0].addr then [] else [rows[0]]) + RunEnds(rows[1..])
  }

  lemma {:induction false} RunEndsAreRunEnds(rows: seq<Row>, row: Row)
    ensures row in RunEnds(rows) <==> exists k :: IsRunEnd(rows, k) && rows[k] == row
  {
    if rows != [] {
      RunEndsAreRunEnds(rows[1..], row);
      if k :| IsRunEnd(rows, k) && rows[k] == row && k > 0 {
        assert IsRunEnd(rows[1..], k - 1);
      }
      if k :| IsRunEnd(rows[1..], k) && rows[1..][k] == row {
        assert IsRunEnd(rows, k + 1);
      }
      assert IsRunEnd(rows, 0) <==> !(|rows| > 1 && rows[1].addr == rows[0].addr);
    }
  }

  lemma {:induction false} RunEndAfter(rows: seq<Row>, k: nat) returns (e: nat)
    requires k < |rows|
    ensures IsRunEnd(rows, e) && rows[e].addr == rows[k].addr
    decreases |rows| - k
  {
    if IsRunEnd(rows, k) {
      e := k;
    } else {
      e := RunEndAfter(rows, k + 1);
    }
  }

  function Fresh(row: Row): LineEntry {
    LineEntry(row.addr, row, None, None, None)
  }

  ghost function FreshEntries(rows: seq<Row>): (r: seq<LineEntry>)
    ensures |r| == |rows| && forall i :: 0 <= i < |r| ==> r[i] == Fresh(rows[i])
  {
    seq(|rows|, i requires 0 <= i < |rows| => Fresh(rows[i]))
  }

  /** std::sort: what it does with equal keys depends on its input only. */
  type Sorter = seq<LineEntry> -> seq<LineEntry>

  ghost predicate IsSorter(sort: Sorter) {
    forall items :: SortedBy(sort(items), Low) && multiset(sort(items)) == multiset(items)
  }

  /** One entry for each run. */
  ghost function Table(rows: seq<Row>, sort: Sorter): seq<LineEntry> {
    sort(FreshEntries(RunEnds(rows)))
  }

  /** The scan over a run from its first row to its last. */
  lemma {:induction false} OneRun(rows: seq<Row>, i: nat, j: nat)
    requires i < j <= |rows| && forall k :: i <= k < j ==> rows[k].addr == rows[i].addr
    requires j < |rows| ==> rows[j].addr != rows[i].addr
    ensures RunEnds(rows[i..]) == [rows[j - 1]] + RunEnds(rows[j..])
    decreases j - i
  {
    assert rows[i..][1..] == rows[i + 1..];
    if i + 1 < j {
      OneRun(rows, i + 1, j);
    }
  }

  method BuildLineEntries(rows: seq<Row>, sort: Sorter) returns (entries: seq<LineEntry>)
    requires IsSorter(sort)
    ensures entries == Table(rows, sort)
  {
    hide RunEnds;
    entries := [];
    var i := 0;
    ghost var before: seq<Row> := [];
    assert rows[0..] == rows && before + RunEnds(rows) == RunEnds(rows);
    while i < |rows|
      invariant 0 <= i <= |rows|
      invariant entries == FreshEntries(before) && before + RunEnds(rows[i..]) == RunEnds(rows)
      decreases |rows| - i
    {
      var lowAddr := rows[i].addr;
      // to the end of the run
      var j := i + 1;
      while j < |rows| && rows[j].addr == lowAddr
        invariant i < j <= |rows|
        invariant forall k :: i <= k < j ==> rows[k].addr == lowAddr
      {
        j := j + 1;
      }
      OneRun(rows, i, j);
      entries := entries + [LineEntry(lowAddr, rows[j - 1], None, None, None)];
      assert before + ([rows[j - 1]] + RunEnds(rows[j..])) == (before + [rows[j - 1]]) + RunEnds(rows[j..]);
      before := before + [rows[j - 1]];
      i := j;
    }
    NoRuns();
    assert before + [] == before && rows[|rows|..] == [];
    entries := sort(entries);
  }

  lemma NoRuns()
    ensures RunEnds([]) == []
  {
  }

  predicate IsFaithful(e: LineEntry) {
    && (e.path.Some? ==> e.path.value == e.line.path)
    && (e.lineNumber.Some? ==> e.lineNumber.value == Uint32(e.line.number))
    && (e.columnNumber.Some? ==> e.columnNumber.value == Uint32(e.line.column))
  }

  /** The table of the rows, with some fields filled in, all of them rightly. */
  ghost predicate Represents(entries: seq<LineEntry>, rows: seq<Row>, sort: Sorter) {
    && |entries| == |Table(rows, sort)|
    && forall i :: 0 <= i < |entries| ==>
         IsFaithful(entries[i]) && entries[i].(path := None, lineNumber := None, columnNumber := None) == Table(rows, sort)[i]
  }

  // ---------------------------------------------------------------- searching the table

  /** The row that a lookup answers with: a function of the rows and the pc. */
  ghost function Answer(rows: seq<Row>, pc: nat, sort: Sorter): Option<Row> {
    var position := LastAtMost(Keys(Table(rows, sort), Low), pc);
    if position.None? then None else Some(Table(rows, sort)[position.value].line)
  }

  lemma TableIsRepresented(rows: seq<Row>, sort: Sorter)
    requires IsSorter(sort)
    ensures SortedBy(Table(rows, sort), Low) && Represents(Table(rows, sort), rows, sort)
  {
    hide RunEnds, IsSorter;
    var table := Table(rows, sort);
    forall i | 0 <= i < |table|
      ensures table[i] == Fresh(table[i].line)
    {
      InTable(rows, sort, table[i]);
    }
    assert IsSorter(sort) ==> SortedBy(table, Low) by {
      SorterSorts(sort, FreshEntries(RunEnds(rows)));
    }
  }

  lemma SorterSorts(sort: Sorter, items: seq<LineEntry>)
    ensures IsSorter(sort) ==> SortedBy(sort(items), Low) && multiset(sort(items)) == multiset(items)
  {
  }

  lemma InTable(rows: seq<Row>, sort: Sorter, e: LineEntry)
    requires IsSorter(sort)
    ensures e in Table(rows, sort) <==> e == Fresh(e.line) && e.line in RunEnds(rows)
  {
    hide RunEnds;
    var items := FreshEntries(RunEnds(rows));
    SorterSorts(sort, items);
    assert e in sort(items) <==> e in multiset(sort(items));
    assert e in items <==> e in multiset(items);
    if e in items {
      var i :| 0 <= i < |items| && items[i] == e;
      assert RunEnds(rows)[i] == e.line;
    }
    if e == Fresh(e.line) && e.line in RunEnds(rows) {
      var i :| 0 <= i < |RunEnds(rows)| && RunEnds(rows)[i] == e.line;
      assert items[i] == e;
    }
  }

  /** The answer is a run end of greatest address at most the pc. */
  lemma TableAnswers(rows: seq<Row>, pc: nat, sort: Sorter)
    requires IsSorter(sort)
    ensures Answers(rows, pc, Answer(rows, pc, sort))
  {
    hide RunEnds, IsSorter;
    TableIsRepresented(rows, sort);
    var table := Table(rows, sort);
    hide Table;
    var position := LastAtMost(Keys(table, Low), pc);
    if position.Some? {
      var e := table[position.value];
      assert e in table && Keys(table, Low)[position.value] == e.low;
      InTable(rows, sort, e);
      RunEndsAreRunEnds(rows, e.line);
    }
    forall k | 0 <= k < |rows| && rows[k].addr <= pc
      ensures position.Some? && rows[k].addr <= table[position.value].low
    {
      var e := RunEndAfter(rows, k);
      RunEndsAreRunEnds(rows, rows[e]);
      InTable(rows, sort, Fresh(rows[e]));
      var i :| 0 <= i < |table| && table[i] == Fresh(rows[e]);
      assert Keys(table, Low)[i] == Low(table[i]) == rows[e].addr;
      assert i <= position.value;
      assert i == position.value || Low(table[i]) <= Low(table[position.value]);
    }
  }

  lemma SearchIsAnswer(entries: seq<LineEntry>, rows: seq<Row>, pc: nat, sort: Sorter, position: Option<nat>)
    requires Represents(entries, rows, sort) && IsLastAtMost(Keys(entries, Low), pc, position)
    ensures Answer(rows, pc, sort) == if position.None? then None else Some(entries[position.value].line)
  {
    hide Table;
    assert Keys(entries, Low) == Keys(Table(rows, sort), Low);
    LastAtMostIsUnique(Keys(entries, Low), pc, position, LastAtMost(Keys(Table(rows, sort), Low), pc));
  }

  /** The line, the column and the path of a run end of greatest address at most the pc, or nothing new. */
  ghost predicate IsReported(rows: seq<Row>, pc: nat, sort: Sorter, frame: LineInfo, info: LineInfo) {
    var r := Answer(rows, pc, sort);
    && Answers(rows, pc, r)
    && (r.None? ==> info == frame)
    && (r.Some? ==> info.line == r.value.number % 0x1_0000_0000 && info.column == r.value.column % 0x1_0000_0000
                    && info.filename == r.value.path)
  }

  lemma AnswerIsReported(rows: seq<Row>, pc: nat, sort: Sorter, frame: LineInfo)
    requires IsSorter(sort)
    ensures IsReported(rows, pc, sort, frame, Reported(Answer(rows, pc, sort), frame))
  {
    hide Answer, Answers, IsSorter;
    TableAnswers(rows, pc, sort);
  }

  // ---------------------------------------------------------------- the resolver

  class LineResolver {
    // What libdwarf has for each unit; some units have no line table.
    const units: map<nat, UnitLines>
    const sort: Sorter
    const lineTables: LruCache<nat, LineTable>

    ghost predicate Valid()
      reads this, lineTables, lineTables.lru
    {
      && IsSorter(sort) && lineTables.Valid()
      && forall n | n in lineTables.lru :: IsTableOf(n.value, n.key)
    }

    ghost predicate IsTableOf(table: LineTable, offset: nat) {
      && offset in units
      && table.version == units[offset].version
      && SortedBy(table.entries, Low) && Represents(table.entries, units[offset].rows, sort)
    }

    constructor (units: map<nat, UnitLines>, maxTables: Option<nat>, sort: Sorter)
      requires IsSorter(sort) && (maxTables.Some? ==> maxTables.value > 0)
      ensures Valid() && this.units == units && this.sort == sort
    {
      this.units := units;
      this.sort := sort;
      lineTables := new LruCache<nat, LineTable>(maxTables);
    }

    /** A reference to the unit's table, good until the cache changes. */
    method GetLineTable(offset: nat) returns (r: Option<Node<nat, LineTable>>)
      requires Valid()
      modifies lineTables
      ensures Valid()
      ensures r.Some? <==> offset in units
      ensures r.Some? ==> r.value in lineTables.lru && r.value.key == offset
      ensures forall n | n in lineTables.lru :: n in old(lineTables.lru) || fresh(n)
    {
      hide SortedBy, Represents, Linked, Contents, Inserted, Find, IsSorter;
      r := lineTables.MaybeGet(offset);
      SameNodes(lineTables.lru, old(lineTables.lru));
      if r.None? && offset in units {
        r := LoadLineTable(offset);
      }
    }

    method LoadLineTable(offset: nat) returns (r: Option<Node<nat, LineTable>>)
      requires Valid() && offset in units && Find(lineTables.Recency(), offset).None?
      modifies lineTables
      ensures Valid()
      ensures r.Some? && r.value in lineTables.lru && r.value.key == offset
      ensures forall n | n in lineTables.lru :: n in old(lineTables.lru) || fresh(n)
    {
      hide SortedBy, Represents, Linked, Contents, Inserted, Find, IsSorter, Table;
      var entries := BuildLineEntries(units[offset].rows, sort);
      TableIsRepresented(units[offset].rows, sort);
      assert lineTables.Recency() == old(lineTables.Recency());
      r := lineTables.Insert(offset, LineTable(units[offset].version, entries));
      FirstIsNew(lineTables.lru, old(lineTables.lru));
    }

    /** The answer depends on the unit's rows and the pc only: not on what was looked up before, on what
        is filled in, or on what was evicted. */
    method RetrieveLineInfo(offset: nat, pc: nat, frame: LineInfo) returns (info: LineInfo)
      requires Valid()
      modifies lineTables, lineTables.lru
      ensures Valid()
      ensures info == if offset in units then Reported(Answer(units[offset].rows, pc, sort), frame) else frame
      ensures if offset in units then IsReported(units[offset].rows, pc, sort, frame, info) else info == frame
    {
      if offset in units {
        AnswerIsReported(units[offset].rows, pc, sort, frame);
      }
      hide Linked, Contents, IsSorter, Answer, IsReported;
      info := frame;
      var tableInfo := GetLineTable(offset);
      if tableInfo.None? {
        return;
      }
      var node := tableInfo.value;
      var entries := node.value.entries;
      var lows := seq(|entries|, i requires 0 <= i < |entries| => Low(entries[i]));
      assert lows == Keys(entries, Low);
      var it := FirstLessThanOrEqual(lows, pc);
      SearchIsAnswer(entries, units[offset].rows, pc, sort, it);
      if it.Some? {
        var entry := entries[it.value];
        if entry.lineNumber.None? {
          entry := entry.(lineNumber := Some(Uint32(entry.line.number)));
        }
        if entry.columnNumber.None? {
          entry := entry.(columnNumber := Some(Uint32(entry.line.column)));
        }
        if entry.path.None? {
          entry := entry.(path := Some(entry.line.path));
        }
        FilledIn(entries, it.value, entry, units[offset].rows, sort);
        node.value := node.value.(entries := entries[it.value := entry]);
        info := LineInfo(entry.lineNumber.value, entry.columnNumber.value, entry.path.value);
      }
    }
  }

  lemma SameNodes<T>(nodes: seq<T>, before: seq<T>)
    requires multiset(nodes) == multiset(before)
    ensures forall n | n in nodes :: n in before
  {
    assert forall n | n in nodes :: n in multiset(nodes);
  }

  lemma FirstIsNew<T>(nodes: seq<T>, before: seq<T>)
    requires nodes != [] && nodes[1..] <= before
    ensures forall n | n in nodes :: n == nodes[0] || n in before
  {
    assert nodes == [nodes[0]] + nodes[1..];
  }

  lemma FilledIn(entries: seq<LineEntry>, i: nat, entry: LineEntry, rows: seq<Row>, sort: Sorter)
    requires SortedBy(entries, Low) && Represents(entries, rows, sort) && i < |entries|
    requires IsFaithful(entry) && entry.low == entries[i].low && entry.line == entries[i].line
    ensures var entries' := entries[i := entry]; SortedBy(entries', Low) && Represents(entries', rows, sort)
  {
    hide Table;
    var entries' := entries[i := entry];
    assert forall j :: 0 <= j < |entries| ==> Low(entries'[j]) == Low(entries[j]);
  }
}
