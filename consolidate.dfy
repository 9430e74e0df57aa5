/**
 * The row-group consolidator: process_excel of the "Excel Data Processor"
 * window in combineawards.py, OLE-finalv2.py and OLE-finalv3.py. One
 * forward pass from row 2 groups the rows of a sheet by a three-part key
 * (class name, class number, grouping criteria); every group with more than
 * one member gets the ", "-join of its values written into its first row,
 * which is highlighted; the later members are then deleted bottom-up.
 */
module Consolidate {
  import opened Results
  import opened Text
  import opened Cells
  import opened Columns

  /** combineawards.py keys on stripped strings (safe_get_value); OLE-finalv2.py and OLE-finalv3.py key on the raw cell values. */
  datatype KeyStyle = NormalisedKey | RawKey

  /** Why process_excel returns without saving anything. */
  datatype Failure =
    | BadSelector            // int() or column_index_from_string rejects a column entry
    | FewerColumns(row: int) // IndexError while reading sheet row `row` in the grouping pass
    | RowFailed(row: int)    // any other exception while reading sheet row `row`
    | WriteFailed            // an exception in the second pass: a join over a number, or a column below 1

  datatype Outcome<T> = Done(value: T) | Failed(failure: Failure)

  /**
   * safe_get_value: "" for an empty cell, otherwise the cell's text with
   * exactly its leading and trailing whitespace removed.
   */
  function SafeValue(c: Cell): (r: string)
    ensures c.Empty? ==> r == ""
    ensures !c.Empty? ==> Padded(Render(c), r)
    ensures NoSpaceEnds(r)
  {
    if c.Empty? then "" else Strip(Render(c))
  }

  /** The four column entries of the window, as 0-based tuple indices. */
  datatype Selection = Selection(nameCol: int, numCol: int, critCol: int, valueCol: int)

  /** column_index_from_string(letters) - 1, or None where it raises. */
  function LetterColumn(letters: string): (r: Option<int>)
    ensures r.Some? ==> 0 <= r.value < MaxColumn
  {
    match ColumnIndex(letters) case None => None case Some(c) => Some(c - 1)
  }

  /**
   * One entry as a 0-based index: int(entry) - 1 in combineawards.py,
   * column_index_from_string(entry.strip().upper()) - 1 in the other two;
   * None where the conversion raises.
   */
  function Selector(style: KeyStyle, entry: string): (r: Option<int>)
    ensures style == RawKey && r.Some? ==> 0 <= r.value < MaxColumn
  {
    match style
    case NormalisedKey => (match ParseInt(entry) case None => None case Some(n) => Some(n - 1))
    case RawKey => LetterColumn(Upper(Strip(entry)))
  }

  function ParseSelection(style: KeyStyle, entries: seq<string>): Option<Selection>
    requires |entries| == 4
  {
    var s0, s1, s2, s3 := Selector(style, entries[0]), Selector(style, entries[1]), Selector(style, entries[2]), Selector(style, entries[3]);
    if s0.Some? && s1.Some? && s2.Some? && s3.Some? then Some(Selection(s0.value, s1.value, s2.value, s3.value)) else None
  }

  /** An integer entry selects the column it names: entry "n" is 0-based index n - 1. */
  lemma IntegerSelectorRoundTrip(n: int)
    ensures Selector(NormalisedKey, IntToString(n)) == Some(n - 1)
  {
    IntToStringRoundTrip(n);
  }

  /** A letter entry is read only through its stripped, upper-cased text. */
  lemma RawSelectorReads(e: string)
    ensures Selector(RawKey, e) == LetterColumn(Upper(Strip(e)))
  {
  }

  lemma LabelColumn(n: nat)
    requires 1 <= n <= MaxColumn
    ensures LetterColumn(ColumnLabel(n)) == Some(n - 1)
  {
    ColumnLabelRoundTrip(n);
  }

  /** A label needs no stripping or upper-casing before the lookup. */
  lemma SelectorReadsLabel(n: nat)
    requires 1 <= n <= MaxColumn
    ensures Selector(RawKey, ColumnLabel(n)) == LetterColumn(ColumnLabel(n))
  {
    var name := ColumnLabel(n);
    RawSelectorReads(name);
    LabelReadsAsItself(name);
  }

  /** The entry column_index_from_string reads back as column n selects the 0-based index n - 1. */
  lemma LetterSelectorRoundTrip(n: nat)
    requires 1 <= n <= MaxColumn
    ensures Selector(RawKey, ColumnLabel(n)) == Some(n - 1)
  {
    SelectorReadsLabel(n);
    LabelColumn(n);
  }

  /**
   * In OLE-finalv2.py and OLE-finalv3.py an entry is read after strip() and
   * upper(): whitespace around it and the case of its letters do not change
   * the column it selects.
   */
  lemma LetterSelectorCaseAndPadding(a: string, s: string, t: string, b: string)
    requires AllSpace(a) && AllSpace(b) && NoSpaceEnds(s) && NoSpaceEnds(t) && Upper(s) == Upper(t)
    ensures Selector(RawKey, a + t + b) == Selector(RawKey, s)
  {
    calc {
      Selector(RawKey, a + t + b);
    == { RawSelectorReads(a + t + b); }
      LetterColumn(Upper(Strip(a + t + b)));
    == { StripUpperAlike(a, s, t, b); }
      LetterColumn(Upper(Strip(s)));
    == { RawSelectorReads(s); }
      Selector(RawKey, s);
    }
  }

  /** So " c " selects the same column as "C": any lower-cased, padded label selects its own column. */
  lemma PaddedLowerLabelSelects(n: nat, a: string, b: string)
    requires 1 <= n <= MaxColumn && AllSpace(a) && AllSpace(b)
    ensures Selector(RawKey, a + Lower(ColumnLabel(n)) + b) == Some(n - 1)
  {
    var name := ColumnLabel(n);
    assert !IsSpace(name[0]) && !IsSpace(name[|name| - 1]);
    LowerNoSpaceEnds(name);
    assert Upper(Lower(name)) == Upper(name);
    calc {
      Selector(RawKey, a + Lower(name) + b);
    == { LetterSelectorCaseAndPadding(a, name, Lower(name), b); }
      Selector(RawKey, name);
    == { LetterSelectorRoundTrip(n); }
      Some(n - 1);
    }
  }

  /** Python's tuple indexing row[i]: negative indices count from the end; None where it raises IndexError. */
  function PyIndex(n: nat, i: int): (r: Option<nat>)
    ensures r.Some? <==> -(n as int) <= i < n
    ensures r.Some? ==> r.value < n && (r.value == i || r.value == n + i)
  {
    if 0 <= i < n then Some(i) else if -(n as int) <= i < 0 then Some(n + i) else None
  }

  function At(row: seq<Cell>, i: int): Option<Cell>
  {
    match PyIndex(|row|, i)
    case None => None
    case Some(j) => Some(row[j])
  }

  datatype Key = Key(name: string, num: Cell, crit: Cell)

  /** What the grouping pass does with one row: raise, skip it (all three key parts falsy), or file its value under its key. */
  datatype RowOutcome = Raised(failure: Failure) | Skipped | Keyed(key: Key, value: Cell)

  /** The class name of the raw style: value.lower() when the value is truthy, else ""; None where .lower() raises on a number. */
  function RawName(c: Cell): (r: Option<string>)
    ensures r.None? <==> Truthy(c) && c.Num?
    ensures r.Some? && r.value != "" ==> Truthy(c)
    ensures r.Some? ==> NoUpper(r.value)
  {
    if !Truthy(c) then Some("") else if c.Str? then Some(Lower(c.s)) else None
  }

  /** The class-name part as the style reads it: safe_get_value(...).lower() in combineawards.py, RawName in the other two. */
  function NamePart(style: KeyStyle, c: Cell): (r: Option<string>)
    ensures r.Some? ==> NoUpper(r.value)
  {
    if style == NormalisedKey then Some(Lower(SafeValue(c))) else RawName(c)
  }

  /** A key part as the style reads it: the raw value, or its safe_get_value string. */
  function Part(style: KeyStyle, c: Cell): Cell
  {
    if style == NormalisedKey then Str(SafeValue(c)) else c
  }

  /** The body of the first-pass loop for sheet row rowIdx, reading the cells in the order the source reads them. */
  function ClassifyRow(style: KeyStyle, sel: Selection, row: seq<Cell>, rowIdx: int): RowOutcome
  {
    ClassifyCells(style, At(row, sel.nameCol), At(row, sel.numCol), At(row, sel.critCol), At(row, sel.valueCol), rowIdx)
  }

  /** The same, given the four reads (None where the index raises); the value cell is only read for a row that is not skipped. */
  function ClassifyCells(style: KeyStyle, c0: Option<Cell>, c1: Option<Cell>, c2: Option<Cell>, c3: Option<Cell>, rowIdx: int): RowOutcome
  {
    if c0.None? then Raised(FewerColumns(rowIdx))
    else
      var name := NamePart(style, c0.value);
      if name.None? then Raised(RowFailed(rowIdx))
      else if c1.None? || c2.None? then Raised(FewerColumns(rowIdx))
      else
        var num, crit := Part(style, c1.value), Part(style, c2.value);
        if name.value == "" && !Truthy(num) && !Truthy(crit) then Skipped
        else if c3.None? then Raised(FewerColumns(rowIdx))
        else Keyed(Key(name.value, num, crit), Part(style, c3.value))
  }

  /** The outcome of every data row; data[i] is sheet row i + 2. */
  function Classify(style: KeyStyle, sel: Selection, data: seq<seq<Cell>>): (outs: seq<RowOutcome>)
    ensures |outs| == |data|
    ensures forall i :: 0 <= i < |data| ==> outs[i] == ClassifyRow(style, sel, data[i], i + 2)
  {
    seq(|data|, i requires 0 <= i < |data| => ClassifyRow(style, sel, data[i], i + 2))
  }

  /** A filed row's key always has a truthy part: rows whose three parts are all falsy are skipped, not grouped. */
  lemma KeyedHasTruthyPart(style: KeyStyle, sel: Selection, row: seq<Cell>, rowIdx: int)
    ensures ClassifyRow(style, sel, row, rowIdx).Keyed? ==>
      var k := ClassifyRow(style, sel, row, rowIdx).key;
      k.name != "" || Truthy(k.num) || Truthy(k.crit)
  {
  }

  /** In the raw style a class-name cell holding a non-zero number makes the row raise (numbers have no .lower()). */
  lemma RawNumericNameRaises(sel: Selection, row: seq<Cell>, rowIdx: int)
    requires At(row, sel.nameCol).Some? && At(row, sel.nameCol).value.Num? && At(row, sel.nameCol).value.n != 0
    ensures ClassifyRow(RawKey, sel, row, rowIdx) == Raised(RowFailed(rowIdx))
  {
  }

  /** Two cells read alike through safe_get_value (an index that raises in one raises in the other). */
  predicate ReadsAlike(row: seq<Cell>, row': seq<Cell>, i: int)
  {
    At(row, i).Some? == At(row', i).Some? &&
    (At(row, i).Some? ==> SafeValue(At(row, i).value) == SafeValue(At(row', i).value))
  }

  /**
   * In the normalised style a row's outcome depends only on the stripped
   * text of its four selected cells: two rows whose selected cells read
   * alike through safe_get_value are classified alike.
   */
  lemma NormalisedRowsAgree(sel: Selection, row: seq<Cell>, row': seq<Cell>, rowIdx: int)
    requires ReadsAlike(row, row', sel.nameCol) && ReadsAlike(row, row', sel.numCol)
    requires ReadsAlike(row, row', sel.critCol) && ReadsAlike(row, row', sel.valueCol)
    ensures ClassifyRow(NormalisedKey, sel, row, rowIdx) == ClassifyRow(NormalisedKey, sel, row', rowIdx)
  {
    var a0, a1, a2, a3 := At(row, sel.nameCol), At(row, sel.numCol), At(row, sel.critCol), At(row, sel.valueCol);
    var b0, b1, b2, b3 := At(row', sel.nameCol), At(row', sel.numCol), At(row', sel.critCol), At(row', sel.valueCol);
    ReadAlike(a0, b0);
    ReadAlike(a1, b1);
    ReadAlike(a2, b2);
    ReadAlike(a3, b3);
    CellsAlike(a0, a1, a2, a3, b0, b1, b2, b3, rowIdx);
  }

  lemma CellsAlike(a0: Option<Cell>, a1: Option<Cell>, a2: Option<Cell>, a3: Option<Cell>,
                   b0: Option<Cell>, b1: Option<Cell>, b2: Option<Cell>, b3: Option<Cell>, rowIdx: int)
    requires a0.Some? == b0.Some? && (a0.Some? ==> NamePart(NormalisedKey, a0.value) == NamePart(NormalisedKey, b0.value))
    requires a1.Some? == b1.Some? && (a1.Some? ==> Part(NormalisedKey, a1.value) == Part(NormalisedKey, b1.value))
    requires a2.Some? == b2.Some? && (a2.Some? ==> Part(NormalisedKey, a2.value) == Part(NormalisedKey, b2.value))
    requires a3.Some? == b3.Some? && (a3.Some? ==> Part(NormalisedKey, a3.value) == Part(NormalisedKey, b3.value))
    ensures ClassifyCells(NormalisedKey, a0, a1, a2, a3, rowIdx) == ClassifyCells(NormalisedKey, b0, b1, b2, b3, rowIdx)
  {
  }

  /** Two reads that agree through safe_get_value give the same key parts. */
  lemma ReadAlike(a: Option<Cell>, b: Option<Cell>)
    requires a.Some? == b.Some? && (a.Some? ==> SafeValue(a.value) == SafeValue(b.value))
    ensures a.Some? ==> NamePart(NormalisedKey, a.value) == NamePart(NormalisedKey, b.value)
    ensures a.Some? ==> Part(NormalisedKey, a.value) == Part(NormalisedKey, b.value)
  {
  }

  /** A number is keyed by its decimal text: in combineawards.py the number n and the string str(n) give the same key part. */
  lemma NumberKeysAsItsText(n: int)
    ensures SafeValue(Num(n)) == SafeValue(Str(IntToString(n))) == IntToString(n)
  {
    var s := IntToString(n);
    IntToStringDigits(n);
    assert !IsSpace(s[0]);
    assert !IsSpace(s[|s| - 1]) by {
      if n < 0 {
        assert s[|s| - 1] == s[1..][|s| - 2];
      }
    }
    StripNoSpaceEnds(s);
  }

  /**
   * In combineawards.py whitespace around a cell's text does not change its
   * key part: " x " and "x" read alike.
   */
  lemma PaddingIgnored(a: string, s: string, b: string)
    requires AllSpace(a) && AllSpace(b)
    ensures SafeValue(Str(a + s + b)) == SafeValue(Str(s))
  {
    StripPadding(a, s, b);
  }

  /** So in combineawards.py the number n and the text " n " (any whitespace around str(n)) key alike. */
  lemma PaddedNumberKeysAsItsText(n: int, a: string, b: string)
    requires AllSpace(a) && AllSpace(b)
    ensures SafeValue(Str(a + IntToString(n) + b)) == SafeValue(Num(n))
  {
    PaddingIgnored(a, IntToString(n), b);
    NumberKeysAsItsText(n);
  }

  /** Class names are compared case-insensitively: texts that lower-case alike give the same class-name part, in every style. */
  lemma NameCaseIgnored(style: KeyStyle, s: string, t: string)
    requires Lower(s) == Lower(t)
    ensures NamePart(style, Str(s)) == NamePart(style, Str(t))
  {
    if style == NormalisedKey {
      StripLower(s);
      StripLower(t);
    } else {
      assert |s| == |Lower(s)| == |t|;
    }
  }

  /** One entry of the groups dict: the values in encounter order, first_row and rows_to_combine. */
  datatype Group = Group(key: Key, values: seq<Cell>, firstRow: int, members: seq<int>)

  /** The groups in insertion (first occurrence) order, and rows_to_delete. */
  datatype Grouping = Grouping(groups: seq<Group>, toDelete: set<int>)

  /** groups[key] lookup: the index of the group holding key k. */
  function FindGroup(groups: seq<Group>, k: Key): (r: Option<nat>)
    ensures r.Some? ==> r.value < |groups| && groups[r.value].key == k
    ensures r.None? ==> forall i :: 0 <= i < |groups| ==> groups[i].key != k
  {
    if groups == [] then None
    else
      var r := FindGroup(groups[..|groups| - 1], k);
      if r.Some? then r else if groups[|groups| - 1].key == k then Some(|groups| - 1) else None
  }

  /** The lookup depends only on the keys of the groups. */
  lemma {:induction false} FindGroupSameKeys(a: seq<Group>, b: seq<Group>, k: Key)
    requires |a| == |b| && forall i :: 0 <= i < |a| ==> a[i].key == b[i].key
    ensures FindGroup(a, k) == FindGroup(b, k)
    decreases |a|
  {
    if a != [] {
      FindGroupSameKeys(a[..|a| - 1], b[..|b| - 1], k);
    }
  }

  /** The first pass on one filed row: a new key opens a group anchored at r, a known key appends to its group and marks r for deletion. */
  function AddRow(g: Grouping, k: Key, v: Cell, r: int): Grouping
  {
    match FindGroup(g.groups, k)
    case None => Grouping(g.groups + [Group(k, [v], r, [r])], g.toDelete)
    case Some(i) =>
      var grp := g.groups[i];
      Grouping(g.groups[i := grp.(values := grp.values + [v], members := grp.members + [r])], g.toDelete + {r})
  }

  /** The first pass over the rows with outcomes outs (outs[i] is sheet row i + 2): the first raising row ends it. */
  function Grouped(outs: seq<RowOutcome>): Outcome<Grouping>
    decreases |outs|
  {
    if outs == [] then Done(Grouping([], {}))
    else
      var n := |outs| - 1;
      match Grouped(outs[..n])
      case Failed(f) => Failed(f)
      case Done(g) =>
        match outs[n]
        case Raised(f) => Failed(f)
        case Skipped => Done(g)
        case Keyed(k, v) => Done(AddRow(g, k, v, n + 2))
  }

  lemma {:induction false} GroupedStaysFailed(outs: seq<RowOutcome>, i: nat, j: nat)
    requires i <= j <= |outs| && Grouped(outs[..i]).Failed?
    ensures Grouped(outs[..j]) == Grouped(outs[..i])
    decreases j - i
  {
    if j > i {
      GroupedStaysFailed(outs, i, j - 1);
      assert outs[..j][..j - 1] == outs[..j - 1];
    }
  }

  lemma WholePrefix<T>(xs: seq<T>)
    ensures xs[..|xs|] == xs
  {
  }

  /** A raising row ends the first pass with its failure. */
  lemma GroupedRaises(outs: seq<RowOutcome>, i: nat)
    requires i < |outs| && Grouped(outs[..i]).Done? && outs[i].Raised?
    ensures Grouped(outs) == Failed(outs[i].failure)
  {
    assert outs[..i + 1][..i] == outs[..i];
    GroupedStaysFailed(outs, i + 1, |outs|);
    assert outs[..|outs|] == outs;
  }

  /** A skipped row leaves the grouping as it is. */
  lemma GroupedSkips(outs: seq<RowOutcome>, i: nat)
    requires i < |outs| && outs[i].Skipped?
    ensures Grouped(outs[..i + 1]) == Grouped(outs[..i])
  {
    assert outs[..i + 1][..i] == outs[..i];
  }

  /** A filed row is added to the grouping as sheet row i + 2. */
  lemma GroupedFiles(outs: seq<RowOutcome>, i: nat, g: Grouping)
    requires i < |outs| && Grouped(outs[..i]) == Done(g) && outs[i].Keyed?
    ensures Grouped(outs[..i + 1]) == Done(AddRow(g, outs[i].key, outs[i].value, i + 2))
  {
    assert outs[..i + 1][..i] == outs[..i];
  }

  /** The slot map mirrors the lookup: slot[k] is where FindGroup finds k. */
  ghost predicate Slots(groups: seq<Group>, slot: map<Key, nat>)
  {
    forall k :: FindGroup(groups, k) == if k in slot then Some(slot[k]) else None
  }

  lemma SlotsOpen(groups: seq<Group>, slot: map<Key, nat>, grp: Group)
    requires Slots(groups, slot) && grp.key !in slot
    ensures Slots(groups + [grp], slot[grp.key := |groups|])
  {
    forall k
      ensures FindGroup(groups + [grp], k) == if k in slot[grp.key := |groups|] then Some(slot[grp.key := |groups|][k]) else None
    {
      assert (groups + [grp])[..|groups|] == groups;
    }
  }

  lemma SlotsJoin(groups: seq<Group>, slot: map<Key, nat>, j: nat, grp: Group)
    requires Slots(groups, slot) && j < |groups| && grp.key == groups[j].key
    ensures Slots(groups[j := grp], slot)
  {
    forall k
      ensures FindGroup(groups[j := grp], k) == FindGroup(groups, k)
    {
      FindGroupSameKeys(groups[j := grp], groups, k);
    }
  }

  /**
   * The first pass of process_excel: for row_idx from 2, the groups dict
   * (here a map from key to group index beside the groups in insertion
   * order) and rows_to_delete, or the failure of the first row that raises.
   */
  method GroupRows(style: KeyStyle, sel: Selection, data: seq<seq<Cell>>) returns (r: Outcome<Grouping>)
    ensures r == Grouped(Classify(style, sel, data))
  {
    ghost var outs := Classify(style, sel, data);
    var groups: seq<Group> := [];
    var slot: map<Key, nat> := map[];
    var toDelete: set<int> := {};
    GroupingStarts(outs);
    for i := 0 to |data|
      invariant Grouped(outs[..i]) == Done(Grouping(groups, toDelete))
      invariant Slots(groups, slot)
    {
      var outcome := ClassifyRow(style, sel, data[i], i + 2);
      assert outcome == outs[i];
      var stop;
      stop, groups, slot, toDelete := GroupStep(outs, i, outcome, groups, slot, toDelete);
      if stop.Some? {
        return Failed(stop.value);
      }
    }
    WholePrefix(outs);
    r := Done(Grouping(groups, toDelete));
  }

  /** Before the first row: no groups and nothing to delete. */
  lemma GroupingStarts(outs: seq<RowOutcome>)
    ensures Grouped(outs[..0]) == Done(Grouping([], {})) && Slots([], map[])
  {
    assert outs[..0] == [];
  }

  /** One row of the first pass: its failure when it raises, otherwise the groups with the row filed or skipped. */
  method GroupStep(ghost outs: seq<RowOutcome>, i: nat, outcome: RowOutcome, groups: seq<Group>, slot: map<Key, nat>, toDelete: set<int>)
    returns (stop: Option<Failure>, groups': seq<Group>, slot': map<Key, nat>, toDelete': set<int>)
    requires i < |outs| && outs[i] == outcome
    requires Grouped(outs[..i]) == Done(Grouping(groups, toDelete)) && Slots(groups, slot)
    ensures stop.Some? <==> outcome.Raised?
    ensures stop.Some? ==> Grouped(outs) == Failed(stop.value)
    ensures stop.None? ==> Grouped(outs[..i + 1]) == Done(Grouping(groups', toDelete')) && Slots(groups', slot')
  {
    match outcome {
      case Raised(f) =>
        GroupedRaises(outs, i);
        return Some(f), groups, slot, toDelete;
      case Skipped =>
        GroupedSkips(outs, i);
        return None, groups, slot, toDelete;
      case Keyed(k, v) =>
        GroupedFiles(outs, i, Grouping(groups, toDelete));
        groups', slot', toDelete' := FileRow(groups, slot, toDelete, k, v, i + 2);
        stop := None;
    }
  }

  /** One keyed row of the first pass: appended to its key's group, or opening a new group when the key is new. */
  method FileRow(groups: seq<Group>, slot: map<Key, nat>, toDelete: set<int>, k: Key, v: Cell, row: int)
    returns (groups': seq<Group>, slot': map<Key, nat>, toDelete': set<int>)
    requires Slots(groups, slot)
    ensures Slots(groups', slot')
    ensures Grouping(groups', toDelete') == AddRow(Grouping(groups, toDelete), k, v, row)
  {
    assert FindGroup(groups, k) == if k in slot then Some(slot[k]) else None;
    if k in slot {
      var j := slot[k];
      var grp := groups[j].(values := groups[j].values + [v], members := groups[j].members + [row]);
      SlotsJoin(groups, slot, j, grp);
      groups', slot', toDelete' := groups[j := grp], slot, toDelete + {row};
    } else {
      var grp := Group(k, [v], row, [row]);
      SlotsOpen(groups, slot, grp);
      groups', slot', toDelete' := groups + [grp], slot[k := |groups|], toDelete;
    }
  }

  /** Sheet row r (outs[r - 2]) was filed under some key. */
  predicate Filed(outs: seq<RowOutcome>, r: int)
  {
    2 <= r < |outs| + 2 && outs[r - 2].Keyed?
  }

  function KeyAt(outs: seq<RowOutcome>, r: int): Key
    requires Filed(outs, r)
  {
    outs[r - 2].key
  }

  /** Sheet row r was filed under key k. */
  predicate FiledAs(outs: seq<RowOutcome>, r: int, k: Key)
  {
    Filed(outs, r) && KeyAt(outs, r) == k
  }

  /** Sheet row r repeats a key: some earlier row was filed under the same key. */
  ghost predicate Repeated(outs: seq<RowOutcome>, r: int)
  {
    Filed(outs, r) && exists r' :: 2 <= r' < r && FiledAs(outs, r', KeyAt(outs, r))
  }

  /** Appending a row leaves what is known of the earlier rows unchanged. */
  lemma ExtendKeepsRows(p: seq<RowOutcome>, o: RowOutcome)
    ensures forall r, k :: r < |p| + 2 ==> FiledAs(p + [o], r, k) == FiledAs(p, r, k)
    ensures forall r :: r < |p| + 2 ==> Filed(p + [o], r) == Filed(p, r)
    ensures forall r :: r < |p| + 2 ==> Repeated(p + [o], r) == Repeated(p, r)
  {
    var outs := p + [o];
    forall r | r < |p| + 2
      ensures Filed(outs, r) == Filed(p, r)
      ensures Filed(p, r) ==> KeyAt(outs, r) == KeyAt(p, r)
    {
      if 2 <= r {
        assert outs[r - 2] == p[r - 2];
      }
    }
    forall r | r < |p| + 2
      ensures Repeated(outs, r) == Repeated(p, r)
    {
      if Filed(p, r) {
        assert forall r' :: 2 <= r' < r ==> FiledAs(outs, r', KeyAt(p, r)) == FiledAs(p, r', KeyAt(p, r));
      }
    }
  }

  /**
   * A group as the first pass builds it: its members are exactly the rows
   * filed under its key, ascending, first_row first, and its values are
   * theirs in the same order.
   */
  ghost predicate GroupOf(outs: seq<RowOutcome>, grp: Group)
  {
    |grp.members| == |grp.values| >= 1 && grp.members[0] == grp.firstRow &&
    (forall j, j' :: 0 <= j < j' < |grp.members| ==> grp.members[j] < grp.members[j']) &&
    (forall j :: 0 <= j < |grp.members| ==> 2 <= grp.members[j] < |outs| + 2 && outs[grp.members[j] - 2] == Keyed(grp.key, grp.values[j])) &&
    (forall r :: FiledAs(outs, r, grp.key) ==> r in grp.members)
  }

  ghost predicate AllGroupsOf(outs: seq<RowOutcome>, gs: seq<Group>)
  {
    forall i :: 0 <= i < |gs| ==> GroupOf(outs, gs[i])
  }

  /** Groups in order of first occurrence, one per key. */
  ghost predicate FirstOccurrenceOrder(gs: seq<Group>)
  {
    forall i, j :: 0 <= i < j < |gs| ==> gs[i].firstRow < gs[j].firstRow && gs[i].key != gs[j].key
  }

  ghost predicate EveryKeyGrouped(outs: seq<RowOutcome>, gs: seq<Group>)
  {
    forall r :: Filed(outs, r) ==> exists i :: 0 <= i < |gs| && gs[i].key == KeyAt(outs, r)
  }

  /** rows_to_delete holds exactly the rows that repeat a key. */
  ghost predicate DeletesRepeats(outs: seq<RowOutcome>, toDelete: set<int>)
  {
    forall r :: r in toDelete <==> Repeated(outs, r)
  }

  /**
   * What the first pass computes: one group per key, in order of first
   * occurrence; every filed row in its key's group; and rows_to_delete
   * exactly the rows filed under a key some earlier row was filed under.
   */
  ghost predicate Consistent(outs: seq<RowOutcome>, g: Grouping)
  {
    AllGroupsOf(outs, g.groups) && FirstOccurrenceOrder(g.groups) &&
    EveryKeyGrouped(outs, g.groups) && DeletesRepeats(outs, g.toDelete)
  }

  /** A group stays a group when a row filed under another key (or not filed) is appended. */
  lemma GroupOfExtends(p: seq<RowOutcome>, o: RowOutcome, grp: Group)
    requires GroupOf(p, grp) && !(o.Keyed? && o.key == grp.key)
    ensures GroupOf(p + [o], grp)
  {
    ExtendKeepsRows(p, o);
    assert !FiledAs(p + [o], |p| + 2, grp.key);
  }

  lemma AllGroupsExtend(p: seq<RowOutcome>, o: RowOutcome, gs: seq<Group>)
    requires AllGroupsOf(p, gs) && forall i :: 0 <= i < |gs| ==> !(o.Keyed? && o.key == gs[i].key)
    ensures AllGroupsOf(p + [o], gs)
  {
    forall i | 0 <= i < |gs|
      ensures GroupOf(p + [o], gs[i])
    {
      GroupOfExtends(p, o, gs[i]);
    }
  }

  /** A group grows by a row filed under its key. */
  lemma GroupOfGrows(p: seq<RowOutcome>, v: Cell, grp: Group)
    requires GroupOf(p, grp)
    ensures GroupOf(p + [Keyed(grp.key, v)], grp.(values := grp.values + [v], members := grp.members + [|p| + 2]))
  {
    ExtendKeepsRows(p, Keyed(grp.key, v));
  }

  /** A row filed under a key no earlier row was filed under opens a group of its own. */
  lemma GroupOfOpens(p: seq<RowOutcome>, k: Key, v: Cell)
    requires forall r :: !FiledAs(p, r, k)
    ensures GroupOf(p + [Keyed(k, v)], Group(k, [v], |p| + 2, [|p| + 2]))
  {
    ExtendKeepsRows(p, Keyed(k, v));
  }

  /** No earlier row was filed under a key that FindGroup does not find. */
  lemma UnknownKeyIsNew(p: seq<RowOutcome>, gs: seq<Group>, k: Key)
    requires EveryKeyGrouped(p, gs) && FindGroup(gs, k).None?
    ensures forall r :: !FiledAs(p, r, k)
  {
  }

  lemma EveryKeyExtends(p: seq<RowOutcome>, o: RowOutcome, gs: seq<Group>, gs': seq<Group>)
    requires EveryKeyGrouped(p, gs)
    requires |gs| <= |gs'| && forall i :: 0 <= i < |gs| ==> gs'[i].key == gs[i].key
    requires o.Keyed? ==> exists i :: 0 <= i < |gs'| && gs'[i].key == o.key
    ensures EveryKeyGrouped(p + [o], gs')
  {
    ExtendKeepsRows(p, o);
    forall r | Filed(p + [o], r)
      ensures exists i :: 0 <= i < |gs'| && gs'[i].key == KeyAt(p + [o], r)
    {
      if r < |p| + 2 {
        var i :| 0 <= i < |gs| && gs[i].key == KeyAt(p, r);
        assert gs'[i].key == KeyAt(p + [o], r);
      }
    }
  }

  lemma DeletesSkip(p: seq<RowOutcome>, o: RowOutcome, toDelete: set<int>)
    requires DeletesRepeats(p, toDelete) && !o.Keyed?
    ensures DeletesRepeats(p + [o], toDelete)
  {
    ExtendKeepsRows(p, o);
    forall r ensures r in toDelete <==> Repeated(p + [o], r) {
      if r >= |p| + 2 {
        assert !Repeated(p, r);
      }
    }
  }

  lemma DeletesOpen(p: seq<RowOutcome>, toDelete: set<int>, k: Key, v: Cell)
    requires DeletesRepeats(p, toDelete) && forall r :: !FiledAs(p, r, k)
    ensures DeletesRepeats(p + [Keyed(k, v)], toDelete)
  {
    var outs := p + [Keyed(k, v)];
    ExtendKeepsRows(p, Keyed(k, v));
    forall r ensures r in toDelete <==> Repeated(outs, r) {
      if r >= |p| + 2 {
        assert !Repeated(p, r);
        if r == |p| + 2 {
          assert KeyAt(outs, r) == k;
          forall r' | 2 <= r' < r
            ensures !FiledAs(outs, r', k)
          {
            assert !FiledAs(p, r', k);
          }
        }
      }
    }
  }

  lemma DeletesJoin(p: seq<RowOutcome>, toDelete: set<int>, k: Key, v: Cell, first: int)
    requires DeletesRepeats(p, toDelete) && FiledAs(p, first, k)
    ensures DeletesRepeats(p + [Keyed(k, v)], toDelete + {|p| + 2})
  {
    var outs := p + [Keyed(k, v)];
    ExtendKeepsRows(p, Keyed(k, v));
    assert FiledAs(outs, first, k);
    forall r ensures r in toDelete + {|p| + 2} <==> Repeated(outs, r) {
      if r >= |p| + 2 {
        assert !Repeated(p, r);
        if r == |p| + 2 {
          assert KeyAt(outs, r) == k;
          assert 2 <= first < r && FiledAs(outs, first, KeyAt(outs, r));
        }
      }
    }
  }

  lemma ConsistentSkip(p: seq<RowOutcome>, o: RowOutcome, g: Grouping)
    requires Consistent(p, g) && !o.Keyed?
    ensures Consistent(p + [o], g)
  {
    AllGroupsExtend(p, o, g.groups);
    EveryKeyExtends(p, o, g.groups, g.groups);
    DeletesSkip(p, o, g.toDelete);
  }

  lemma ConsistentOpen(p: seq<RowOutcome>, g: Grouping, k: Key, v: Cell)
    requires Consistent(p, g) && FindGroup(g.groups, k).None?
    ensures Consistent(p + [Keyed(k, v)], AddRow(g, k, v, |p| + 2))
  {
    var r0 := |p| + 2;
    var grp := Group(k, [v], r0, [r0]);
    var gs' := g.groups + [grp];
    assert AddRow(g, k, v, r0) == Grouping(gs', g.toDelete);
    UnknownKeyIsNew(p, g.groups, k);
    AllGroupsExtend(p, Keyed(k, v), g.groups);
    GroupOfOpens(p, k, v);
    assert AllGroupsOf(p + [Keyed(k, v)], gs') by {
      forall i | 0 <= i < |gs'|
        ensures GroupOf(p + [Keyed(k, v)], gs'[i])
      {
        if i < |g.groups| {
          assert gs'[i] == g.groups[i];
        }
      }
    }
    assert FirstOccurrenceOrder(gs') by {
      forall i, j | 0 <= i < j < |gs'|
        ensures gs'[i].firstRow < gs'[j].firstRow && gs'[i].key != gs'[j].key
      {
        if j == |g.groups| {
          assert GroupOf(p, g.groups[i]);
          assert g.groups[i].members[0] < r0;
        }
      }
    }
    assert gs'[|g.groups|].key == k;
    EveryKeyExtends(p, Keyed(k, v), g.groups, gs');
    DeletesOpen(p, g.toDelete, k, v);
  }

  /** Growing one group of a sequence with distinct keys keeps all of them groups. */
  lemma AllGroupsJoin(p: seq<RowOutcome>, gs: seq<Group>, i: nat, v: Cell)
    requires AllGroupsOf(p, gs) && FirstOccurrenceOrder(gs) && i < |gs|
    ensures AllGroupsOf(p + [Keyed(gs[i].key, v)], gs[i := gs[i].(values := gs[i].values + [v], members := gs[i].members + [|p| + 2])])
  {
    var k := gs[i].key;
    var gs' := gs[i := gs[i].(values := gs[i].values + [v], members := gs[i].members + [|p| + 2])];
    forall j | 0 <= j < |gs'|
      ensures GroupOf(p + [Keyed(k, v)], gs'[j])
    {
      if j == i {
        GroupOfGrows(p, v, gs[i]);
      } else {
        assert gs[j].key != k by {
          if j < i {
            assert gs[j].key != gs[i].key;
          } else {
            assert gs[i].key != gs[j].key;
          }
        }
        GroupOfExtends(p, Keyed(k, v), gs[j]);
      }
    }
  }

  /** A group's anchor row is filed under its key. */
  lemma AnchorFiled(p: seq<RowOutcome>, grp: Group)
    requires GroupOf(p, grp)
    ensures FiledAs(p, grp.firstRow, grp.key)
  {
    assert p[grp.members[0] - 2] == Keyed(grp.key, grp.values[0]);
  }

  /** Replacing a group by one with the same key and anchor keeps the order. */
  lemma OrderKept(gs: seq<Group>, i: nat, grp: Group)
    requires FirstOccurrenceOrder(gs) && i < |gs| && grp.key == gs[i].key && grp.firstRow == gs[i].firstRow
    ensures FirstOccurrenceOrder(gs[i := grp])
  {
    var gs' := gs[i := grp];
    forall a, b | 0 <= a < b < |gs'|
      ensures gs'[a].firstRow < gs'[b].firstRow && gs'[a].key != gs'[b].key
    {
      assert gs'[a].firstRow == gs[a].firstRow && gs'[a].key == gs[a].key;
      assert gs'[b].firstRow == gs[b].firstRow && gs'[b].key == gs[b].key;
    }
  }

  lemma ConsistentJoin(p: seq<RowOutcome>, g: Grouping, k: Key, v: Cell, i: nat)
    requires Consistent(p, g) && FindGroup(g.groups, k) == Some(i)
    ensures Consistent(p + [Keyed(k, v)], AddRow(g, k, v, |p| + 2))
  {
    var r0 := |p| + 2;
    var grp := g.groups[i];
    var grp' := grp.(values := grp.values + [v], members := grp.members + [r0]);
    var gs' := g.groups[i := grp'];
    assert AddRow(g, k, v, r0) == Grouping(gs', g.toDelete + {r0});
    AllGroupsJoin(p, g.groups, i, v);
    OrderKept(g.groups, i, grp');
    assert gs'[i].key == k;
    EveryKeyExtends(p, Keyed(k, v), g.groups, gs');
    AnchorFiled(p, grp);
    DeletesJoin(p, g.toDelete, k, v, grp.firstRow);
  }

  /** The first pass computes what Consistent describes, whenever no row raises. */
  lemma {:induction false} GroupedConsistent(outs: seq<RowOutcome>)
    ensures Grouped(outs).Done? ==> Consistent(outs, Grouped(outs).value)
    decreases |outs|
  {
    if outs != [] && Grouped(outs).Done? {
      var n := |outs| - 1;
      var p := outs[..n];
      assert outs == p + [outs[n]];
      GroupedConsistent(p);
      var g := Grouped(p).value;
      assert Grouped(outs[..n]) == Done(g);
      match outs[n] {
        case Raised(_) =>
        case Skipped =>
          assert Grouped(outs) == Done(g);
          ConsistentSkip(p, outs[n], g);
        case Keyed(k, v) =>
          assert Grouped(outs) == Done(AddRow(g, k, v, |p| + 2));
          match FindGroup(g.groups, k) {
            case None => ConsistentOpen(p, g, k, v);
            case Some(i) => ConsistentJoin(p, g, k, v, i);
          }
      }
    }
  }

  /** The first pass fails exactly when some row raises, and then with the failure of the first such row. */
  lemma {:induction false} GroupedFails(outs: seq<RowOutcome>)
    ensures Grouped(outs).Failed? <==> exists i :: 0 <= i < |outs| && outs[i].Raised?
    ensures Grouped(outs).Failed? ==>
      exists i :: 0 <= i < |outs| && outs[i] == Raised(Grouped(outs).failure) && forall j :: 0 <= j < i ==> !outs[j].Raised?
    decreases |outs|
  {
    if outs != [] {
      var n := |outs| - 1;
      var p := outs[..n];
      GroupedFails(p);
      assert forall i :: 0 <= i < n ==> p[i] == outs[i];
    }
  }

  /** An anchor row is never deleted: no earlier row was filed under its key. */
  lemma AnchorsKept(outs: seq<RowOutcome>, g: Grouping)
    requires Consistent(outs, g)
    ensures forall i :: 0 <= i < |g.groups| ==> g.groups[i].firstRow !in g.toDelete
  {
    forall i | 0 <= i < |g.groups|
      ensures g.groups[i].firstRow !in g.toDelete
    {
      var grp := g.groups[i];
      assert GroupOf(outs, grp);
      AnchorFiled(outs, grp);
      forall r' | 2 <= r' < grp.firstRow
        ensures !FiledAs(outs, r', grp.key)
      {
        if FiledAs(outs, r', grp.key) {
          assert false;
        }
      }
    }
  }

  /** ', '.join(v for v in values if v): the truthy values in encounter order; None where one of them is a number (TypeError). */
  function TruthyStrings(values: seq<Cell>): Option<seq<string>>
    decreases |values|
  {
    if values == [] then Some([])
    else
      match TruthyStrings(values[..|values| - 1])
      case None => None
      case Some(parts) =>
        var v := values[|values| - 1];
        if !Truthy(v) then Some(parts)
        else if v.Str? then Some(parts + [v.s])
        else None
  }

  /**
   * The join is over the truthy values, in order: the strings of a + b are
   * those of a followed by those of b, and the join fails when either part
   * holds a truthy number.
   */
  lemma {:induction false} TruthyStringsAppend(a: seq<Cell>, b: seq<Cell>)
    ensures TruthyStrings(a + b) ==
      if TruthyStrings(a).Some? && TruthyStrings(b).Some? then Some(TruthyStrings(a).value + TruthyStrings(b).value) else None
    decreases |b|
  {
    if b == [] {
      assert a + b == a;
      if TruthyStrings(a).Some? {
        assert TruthyStrings(a).value + [] == TruthyStrings(a).value;
      }
    } else {
      var b0 := b[..|b| - 1];
      assert (a + b)[..|a + b| - 1] == a + b0;
      assert (a + b)[|a + b| - 1] == b[|b| - 1];
      TruthyStringsAppend(a, b0);
      var v := b[|b| - 1];
      if TruthyStrings(a).Some? && TruthyStrings(b0).Some? && Truthy(v) && v.Str? {
        var pa, pb := TruthyStrings(a).value, TruthyStrings(b0).value;
        assert pa + (pb + [v.s]) == (pa + pb) + [v.s];
      }
    }
  }

  /** The join fails exactly when some truthy value is not a string; every joined part is a non-empty string taken from the values. */
  lemma {:induction false} TruthyStringsSpec(values: seq<Cell>)
    ensures TruthyStrings(values).Some? <==> forall i :: 0 <= i < |values| && Truthy(values[i]) ==> values[i].Str?
    ensures TruthyStrings(values).Some? ==> forall s :: s in TruthyStrings(values).value ==> s != "" && Str(s) in values
    decreases |values|
  {
    if values != [] {
      var n := |values| - 1;
      TruthyStringsSpec(values[..n]);
      assert forall i :: 0 <= i < n ==> values[..n][i] == values[i];
      if TruthyStrings(values).Some? {
        forall s | s in TruthyStrings(values).value
          ensures s != "" && Str(s) in values
        {
          if s in TruthyStrings(values[..n]).value {
            assert Str(s) in values[..n];
          }
        }
      }
    }
  }

  /** The second pass for all groups: anchor row -> combined value, for the groups with more than one value; None where a join raises. */
  function Combination(groups: seq<Group>): Option<map<int, string>>
    decreases |groups|
  {
    if groups == [] then Some(map[])
    else
      match Combination(groups[..|groups| - 1])
      case None => None
      case Some(m) =>
        var grp := groups[|groups| - 1];
        if |grp.values| <= 1 then Some(m)
        else match TruthyStrings(grp.values)
          case None => None
          case Some(parts) => Some(m[grp.firstRow := Join(parts, ", ")])
  }

  /** A group with more than one value: the only kind the second pass touches. */
  predicate Multi(grp: Group) { |grp.values| > 1 }

  /** The second pass fails exactly when the join of some group with more than one value fails. */
  lemma {:induction false} CombinationFails(groups: seq<Group>)
    ensures Combination(groups).Some? <==> forall i :: 0 <= i < |groups| && Multi(groups[i]) ==> TruthyStrings(groups[i].values).Some?
    decreases |groups|
  {
    if groups != [] {
      var n := |groups| - 1;
      CombinationFails(groups[..n]);
      assert forall i :: 0 <= i < n ==> groups[..n][i] == groups[i];
    }
  }

  /** Otherwise it writes to exactly the anchors of the groups with more than one value. */
  lemma {:induction false} CombinationKeys(groups: seq<Group>, m: map<int, string>)
    requires Combination(groups) == Some(m)
    ensures forall r :: r in m <==> exists i :: 0 <= i < |groups| && Multi(groups[i]) && groups[i].firstRow == r
    decreases |groups|
  {
    if groups != [] {
      var n := |groups| - 1;
      var init := groups[..n];
      var m0 := Combination(init).value;
      CombinationKeys(init, m0);
      forall r | r in m0
        ensures exists i :: 0 <= i < |groups| && Multi(groups[i]) && groups[i].firstRow == r
      {
        var i :| 0 <= i < n && Multi(init[i]) && init[i].firstRow == r;
        assert groups[i] == init[i];
      }
      forall r | exists i :: 0 <= i < |groups| && Multi(groups[i]) && groups[i].firstRow == r
        ensures r in m
      {
        var i :| 0 <= i < |groups| && Multi(groups[i]) && groups[i].firstRow == r;
        if i < n {
          assert init[i] == groups[i];
        }
      }
    }
  }

  /** Anchors being distinct, each anchor gets its own group's join. */
  lemma {:induction false} CombinationValues(groups: seq<Group>, m: map<int, string>)
    requires Combination(groups) == Some(m) && FirstOccurrenceOrder(groups)
    ensures forall i :: 0 <= i < |groups| && Multi(groups[i]) ==>
      groups[i].firstRow in m && TruthyStrings(groups[i].values).Some? &&
      m[groups[i].firstRow] == Join(TruthyStrings(groups[i].values).value, ", ")
    decreases |groups|
  {
    if groups != [] {
      var n := |groups| - 1;
      var init := groups[..n];
      assert FirstOccurrenceOrder(init);
      CombinationValues(init, Combination(init).value);
      forall i | 0 <= i < |groups| && Multi(groups[i])
        ensures groups[i].firstRow in m && TruthyStrings(groups[i].values).Some?
        ensures m[groups[i].firstRow] == Join(TruthyStrings(groups[i].values).value, ", ")
      {
        if i < n {
          assert init[i] == groups[i];
          assert groups[i].firstRow < groups[n].firstRow;
        }
      }
    }
  }

  /** Combinations of a prefix: a second pass that succeeds on all groups succeeds on every prefix. */
  lemma {:induction false} CombinationPrefix(groups: seq<Group>, k: nat)
    requires k <= |groups| && Combination(groups).Some?
    ensures Combination(groups[..k]).Some?
    decreases |groups| - k
  {
    if k < |groups| {
      var n := |groups| - 1;
      assert Combination(groups[..n]).Some?;
      assert groups[..n][..k] == groups[..k];
      CombinationPrefix(groups[..n], k);
    } else {
      assert groups[..k] == groups;
    }
  }

  /** One more group of the second pass: the combination of groups[..k + 1] extends that of groups[..k] by group k's join, when it has more than one value. */
  lemma CombinationNext(groups: seq<Group>, k: nat)
    requires k < |groups| && Combination(groups).Some?
    ensures Combination(groups[..k]).Some? && Combination(groups[..k + 1]).Some?
    ensures Multi(groups[k]) ==> TruthyStrings(groups[k].values).Some?
    ensures Combination(groups[..k + 1]).value ==
      if Multi(groups[k]) then Combination(groups[..k]).value[groups[k].firstRow := Join(TruthyStrings(groups[k].values).value, ", ")]
      else Combination(groups[..k]).value
  {
    var pre := groups[..k + 1];
    CombinationPrefix(groups, k + 1);
    assert |pre| == k + 1 && pre[..k] == groups[..k] && pre[k] == groups[k];
    assert Combination(pre) == match Combination(pre[..k])
      case None => None
      case Some(m) =>
        if |pre[k].values| <= 1 then Some(m)
        else match TruthyStrings(pre[k].values)
          case None => None
          case Some(parts) => Some(m[pre[k].firstRow := Join(parts, ", ")]);
  }

  /** A sheet row: its cells, and whether the second pass highlighted it. */
  datatype Row = Row(cells: seq<Cell>, highlighted: bool)

  /** The sheet after the second pass: each anchor in m gets its value cell replaced and is highlighted; every other row is unchanged. */
  function ApplyRows(rows: seq<Row>, m: map<int, string>, col: int): (r: seq<Row>)
    ensures |r| == |rows|
  {
    seq(|rows|, i requires 0 <= i < |rows| =>
      if i + 1 in m && 0 <= col < |rows[i].cells| then Row(rows[i].cells[col := Str(m[i + 1])], true) else rows[i])
  }

  /** Writing one more anchor r: the sheet for m[r := v] is the sheet for m with row r rewritten and highlighted. */
  lemma ApplyRowsWrite(rows: seq<Row>, m: map<int, string>, col: int, r: int, v: string)
    requires 1 <= r <= |rows| && 0 <= col < |rows[r - 1].cells|
    ensures ApplyRows(rows, m[r := v], col) ==
      ApplyRows(rows, m, col)[r - 1 := Row(ApplyRows(rows, m, col)[r - 1].cells[col := Str(v)], true)]
  {
    var cur := ApplyRows(rows, m, col);
    assert rows[r - 1].cells[col := Str(v)] == cur[r - 1].cells[col := Str(v)];
  }

  /** The rows of xs, numbered from base, whose number is not in D, in order. */
  function Survivors<T>(xs: seq<T>, D: set<int>, base: int): seq<T>
    decreases |xs|
  {
    if xs == [] then []
    else (if base in D then [] else [xs[0]]) + Survivors(xs[1..], D, base + 1)
  }

  lemma {:induction false} SurvivorsAppend<T>(a: seq<T>, b: seq<T>, D: set<int>, base: int)
    ensures Survivors(a + b, D, base) == Survivors(a, D, base) + Survivors(b, D, base + |a|)
    decreases |a|
  {
    if a == [] {
      assert a + b == b;
    } else {
      var head := if base in D then [] else [a[0]];
      var ab := a + b;
      assert ab != [] && ab[0] == a[0] && ab[1..] == a[1..] + b;
      assert Survivors(ab, D, base) == head + Survivors(a[1..] + b, D, base + 1);
      SurvivorsAppend(a[1..], b, D, base + 1);
      assert Survivors(a, D, base) == head + Survivors(a[1..], D, base + 1);
      assert |a[1..]| + 1 == |a|;
      SeqAssoc(head, Survivors(a[1..], D, base + 1), Survivors(b, D, base + |a|));
    }
  }

  lemma SeqAssoc<T>(x: seq<T>, y: seq<T>, z: seq<T>)
    ensures x + (y + z) == (x + y) + z
  {
  }

  /** Only the numbers within the rows' range matter. */
  lemma {:induction false} SurvivorsSameRange<T>(xs: seq<T>, D: set<int>, D': set<int>, base: int)
    requires forall d :: base <= d < base + |xs| ==> (d in D <==> d in D')
    ensures Survivors(xs, D, base) == Survivors(xs, D', base)
    decreases |xs|
  {
    if xs != [] {
      SurvivorsSameRange(xs[1..], D, D', base + 1);
    }
  }

  lemma {:induction false} SurvivorsNone<T>(xs: seq<T>, D: set<int>, base: int)
    requires forall d :: base <= d < base + |xs| ==> d !in D
    ensures Survivors(xs, D, base) == xs
    decreases |xs|
  {
    if xs != [] {
      SurvivorsNone(xs[1..], D, base + 1);
      assert [xs[0]] + xs[1..] == xs;
    }
  }

  /**
   * The index-shifting step of the bottom-up deletion: when every row
   * deleted so far lies below row m, row m still sits at position m, so
   * deleting position m there removes exactly sheet row m.
   */
  lemma DeleteBelowDeleted<T>(xs: seq<T>, P: set<int>, m: int)
    requires 1 <= m <= |xs| && m !in P && forall d :: d in P ==> d > m
    ensures m <= |Survivors(xs, P, 1)|
    ensures Survivors(xs, P + {m}, 1) == Survivors(xs, P, 1)[..m - 1] + Survivors(xs, P, 1)[m..]
  {
    var pre, rest := xs[..m - 1], xs[m - 1..];
    assert xs == pre + rest;
    assert rest[1..] == xs[m..];
    SurvivorsAppend(pre, rest, P, 1);
    SurvivorsAppend(pre, rest, P + {m}, 1);
    SurvivorsNone(pre, P, 1);
    SurvivorsNone(pre, P + {m}, 1);
    SurvivorsSameRange(xs[m..], P, P + {m}, m + 1);
    var tail := Survivors(xs[m..], P, m + 1);
    assert rest != [] && rest[0] == xs[m - 1];
    assert Survivors(rest, P, m) == [xs[m - 1]] + tail;
    assert Survivors(rest, P + {m}, m) == [] + tail;
    var s := Survivors(xs, P, 1);
    assert s == pre + ([xs[m - 1]] + tail);
    assert |pre| == m - 1;
    AroundOne(pre, xs[m - 1], tail);
  }

  lemma AroundOne<T>(pre: seq<T>, x: T, tail: seq<T>)
    ensures (pre + ([x] + tail))[..|pre|] == pre && (pre + ([x] + tail))[|pre| + 1..] == tail
    ensures pre + ([] + tail) == pre + tail
  {
  }

  /** The largest element of a non-empty set: the next row sorted(rows_to_delete, reverse=True) hands to delete_rows. */
  ghost function Max(s: set<int>): (m: int)
    requires s != {}
    ensures m in s && forall y :: y in s ==> y <= m
    decreases |s|
  {
    assert exists y :: y in s by {
      if forall y :: y !in s {
        assert false;
      }
    }
    var x :| x in s;
    if s == {x} then x
    else
      var rest := Max(s - {x});
      assert forall y :: y in s ==> y == x || y in s - {x};
      if x > rest then x else rest
  }

  /** The rows numbered base.. whose number is in D and below r. */
  ghost function Below(D: set<int>, base: int, r: int): set<int>
  {
    set d | d in D && base <= d < r
  }

  /** After the deletion the number of rows is the original number minus the number deleted. */
  lemma {:induction false} SurvivorsLength<T>(xs: seq<T>, D: set<int>, base: int)
    requires forall d :: d in D ==> base <= d < base + |xs|
    ensures |Survivors(xs, D, base)| == |xs| - |D|
    decreases |xs|
  {
    if xs == [] {
      assert D == {};
    } else {
      var D' := D - {base};
      SurvivorsLength(xs[1..], D', base + 1);
      SurvivorsSameRange(xs[1..], D, D', base + 1);
      if base in D {
        assert D == D' + {base};
      } else {
        assert D == D';
      }
    }
  }

  lemma BelowStep(D: set<int>, base: int, r: int)
    requires base < r
    ensures |Below(D, base, r)| == |Below(D, base + 1, r)| + if base in D then 1 else 0
  {
    if base in D {
      assert Below(D, base, r) == Below(D, base + 1, r) + {base};
    } else {
      assert Below(D, base, r) == Below(D, base + 1, r);
    }
  }

  /** A surviving row r sits at r minus the number of deleted rows above it. */
  lemma {:induction false} SurvivorAt<T>(xs: seq<T>, D: set<int>, base: int, r: int)
    requires base <= r < base + |xs| && r !in D
    ensures 0 <= r - base - |Below(D, base, r)| < |Survivors(xs, D, base)|
    ensures Survivors(xs, D, base)[r - base - |Below(D, base, r)|] == xs[r - base]
    decreases |xs|
  {
    if r == base {
      assert Below(D, base, r) == {};
    } else {
      SurvivorAt(xs[1..], D, base + 1, r);
      BelowStep(D, base, r);
      assert xs[1..][r - (base + 1)] == xs[r - base];
    }
  }

  /** Every anchor of a group with more than one value is a row of the sheet whose value column col lies within it. */
  ghost predicate AnchorsFit(groups: seq<Group>, col: int, rows: seq<Row>)
  {
    forall i :: 0 <= i < |groups| && Multi(groups[i]) ==>
      1 <= groups[i].firstRow <= |rows| && 0 <= col < |rows[groups[i].firstRow - 1].cells|
  }

  /** Every row number in D is a row of the sheet. */
  ghost predicate RowsFit(D: set<int>, n: int)
  {
    forall r :: r in D ==> 1 <= r <= n
  }

  /** The worksheet process_excel edits in place. */
  class Worksheet {
    var rows: seq<Row>

    constructor(rows: seq<Row>)
      ensures this.rows == rows
    {
      this.rows := rows;
    }

    /**
     * The second pass: for each group with more than one value, the anchor's
     * value cell becomes the ", "-join of the truthy values and every cell of
     * the anchor row is highlighted.
     */
    method WriteGroups(groups: seq<Group>, col: int)
      requires Combination(groups).Some? && AnchorsFit(groups, col, rows)
      modifies this
      ensures rows == ApplyRows(old(rows), Combination(groups).value, col)
    {
      for k := 0 to |groups|
        invariant Combination(groups[..k]).Some?
        invariant rows == ApplyRows(old(rows), Combination(groups[..k]).value, col)
      {
        CombinationNext(groups, k);
        var grp := groups[k];
        if |grp.values| > 1 {
          var joined := Join(TruthyStrings(grp.values).value, ", ");
          ApplyRowsWrite(old(rows), Combination(groups[..k]).value, col, grp.firstRow, joined);
          rows := rows[grp.firstRow - 1 := Row(rows[grp.firstRow - 1].cells[col := Str(joined)], true)];
        }
      }
      assert groups[..|groups|] == groups;
    }

    /** for row_idx in sorted(rows_to_delete, reverse=True): ws.delete_rows(row_idx) */
    method DeleteRows(toDelete: set<int>)
      requires RowsFit(toDelete, |rows|)
      modifies this
      ensures rows == Survivors(old(rows), toDelete, 1)
    {
      var remaining := toDelete;
      SurvivorsNone(rows, {}, 1);
      assert toDelete - remaining == {};
      while remaining != {}
        invariant remaining <= toDelete
        invariant forall d, e :: d in toDelete - remaining && e in remaining ==> e < d
        invariant rows == Survivors(old(rows), toDelete - remaining, 1)
        decreases |remaining|
      {
        ghost var top := Max(remaining);
        var m :| m in remaining && forall x :: x in remaining ==> x <= m;
        DeleteBelowDeleted(old(rows), toDelete - remaining, m);
        rows := rows[..m - 1] + rows[m..];
        assert toDelete - (remaining - {m}) == (toDelete - remaining) + {m};
        remaining := remaining - {m};
      }
      assert toDelete - remaining == toDelete;
    }
  }

  /** The value cell of a filed row was read, so its index lies within the row (negative indices counting from the end). */
  lemma KeyedReadsValue(style: KeyStyle, sel: Selection, row: seq<Cell>, rowIdx: int)
    ensures ClassifyRow(style, sel, row, rowIdx).Keyed? ==> -|row| <= sel.valueCol < |row|
  {
  }

  /** A filed data row had its value cell read, so the value index lies within it. */
  lemma FiledReadsValue(style: KeyStyle, sel: Selection, rows: seq<Row>, r: int)
    requires Filed(Classify(style, sel, DataRows(rows)), r)
    ensures 2 <= r <= |rows| && sel.valueCol < |rows[r - 1].cells|
  {
    var data := DataRows(rows);
    KeyedReadsValue(style, sel, data[r - 2], r);
    assert data[r - 2] == rows[r - 1].cells;
  }

  /** Every filed row is a data row of the sheet whose value cell was read. */
  ghost predicate ReadsValues(outs: seq<RowOutcome>, sel: Selection, rows: seq<Row>)
  {
    forall r :: Filed(outs, r) ==> 2 <= r <= |rows| && sel.valueCol < |rows[r - 1].cells|
  }

  lemma ClassifyReadsValues(style: KeyStyle, sel: Selection, rows: seq<Row>)
    ensures ReadsValues(Classify(style, sel, DataRows(rows)), sel, rows)
  {
    forall r | Filed(Classify(style, sel, DataRows(rows)), r)
      ensures 2 <= r <= |rows| && sel.valueCol < |rows[r - 1].cells|
    {
      FiledReadsValue(style, sel, rows, r);
    }
  }

  /** Every filed value is a string. */
  ghost predicate ValuesAreStrings(outs: seq<RowOutcome>)
  {
    forall i :: 0 <= i < |outs| && outs[i].Keyed? ==> outs[i].value.Str?
  }

  /** The normalised style files every value as a string (safe_get_value). */
  lemma NormalisedValuesAreStrings(sel: Selection, data: seq<seq<Cell>>)
    ensures ValuesAreStrings(Classify(NormalisedKey, sel, data))
  {
  }

  /** When every filed value is a string, no join of the second pass raises. */
  lemma StringJoinsSucceed(outs: seq<RowOutcome>, g: Grouping)
    requires Grouped(outs) == Done(g) && ValuesAreStrings(outs)
    ensures Combination(g.groups).Some?
  {
    GroupedConsistent(outs);
    var gs := g.groups;
    forall i | 0 <= i < |gs| && Multi(gs[i])
      ensures TruthyStrings(gs[i].values).Some?
    {
      assert GroupOf(outs, gs[i]);
      TruthyStringsSpec(gs[i].values);
      forall j | 0 <= j < |gs[i].values|
        ensures gs[i].values[j].Str?
      {
        assert outs[gs[i].members[j] - 2] == Keyed(gs[i].key, gs[i].values[j]);
      }
    }
    CombinationFails(gs);
  }

  /** So in combineawards.py the second pass can only fail on the value column, never on a join. */
  lemma NormalisedJoinsSucceed(sel: Selection, data: seq<seq<Cell>>)
    ensures Grouped(Classify(NormalisedKey, sel, data)).Done? ==>
      Combination(Grouped(Classify(NormalisedKey, sel, data)).value.groups).Some?
  {
    var outs := Classify(NormalisedKey, sel, data);
    NormalisedValuesAreStrings(sel, data);
    if Grouped(outs).Done? {
      StringJoinsSucceed(outs, Grouped(outs).value);
    }
  }

  /** Anchors and deleted rows are filed rows. */
  lemma GroupedFiled(outs: seq<RowOutcome>, g: Grouping)
    requires Grouped(outs) == Done(g)
    ensures forall i :: 0 <= i < |g.groups| ==> Filed(outs, g.groups[i].firstRow)
    ensures forall r :: r in g.toDelete ==> Filed(outs, r)
  {
    GroupedConsistent(outs);
    forall i | 0 <= i < |g.groups|
      ensures Filed(outs, g.groups[i].firstRow)
    {
      assert GroupOf(outs, g.groups[i]);
    }
    forall r | r in g.toDelete
      ensures Filed(outs, r)
    {
      assert Repeated(outs, r);
    }
  }

  /** Every row of a group but the anchor is a repeat, so it is deleted. */
  lemma MembersDeleted(outs: seq<RowOutcome>, g: Grouping)
    requires Consistent(outs, g)
    ensures forall i, j :: 0 <= i < |g.groups| && 1 <= j < |g.groups[i].members| ==> g.groups[i].members[j] in g.toDelete
  {
    forall i, j | 0 <= i < |g.groups| && 1 <= j < |g.groups[i].members|
      ensures g.groups[i].members[j] in g.toDelete
    {
      var grp := g.groups[i];
      assert GroupOf(outs, grp);
      var first, r := grp.members[0], grp.members[j];
      assert 2 <= first < r;
      assert outs[first - 2] == Keyed(grp.key, grp.values[0]);
      assert outs[r - 2] == Keyed(grp.key, grp.values[j]);
      assert FiledAs(outs, r, grp.key) && KeyAt(outs, r) == grp.key;
      assert FiledAs(outs, first, KeyAt(outs, r));
      assert Repeated(outs, r);
    }
  }

  /**
   * When the second pass is let through (something is written only with a
   * value column of at least 0), every anchor it writes is a data row whose
   * value column lies within it, and every deleted row is a data row.
   */
  lemma WrittenAnchorsInRange(outs: seq<RowOutcome>, sel: Selection, rows: seq<Row>, g: Grouping, m: map<int, string>)
    requires Grouped(outs) == Done(g) && ReadsValues(outs, sel, rows)
    requires Combination(g.groups) == Some(m) && (m != map[] ==> sel.valueCol >= 0)
    ensures AnchorsFit(g.groups, sel.valueCol, rows)
    ensures forall r :: r in m ==> 2 <= r <= |rows| && 0 <= sel.valueCol < |rows[r - 1].cells|
    ensures forall r :: r in g.toDelete ==> 2 <= r <= |rows|
    ensures RowsFit(g.toDelete, |rows|)
  {
    GroupedFiled(outs, g);
    CombinationKeys(g.groups, m);
    forall i | 0 <= i < |g.groups| && Multi(g.groups[i])
      ensures 1 <= g.groups[i].firstRow <= |rows| && 0 <= sel.valueCol < |rows[g.groups[i].firstRow - 1].cells|
    {
      assert g.groups[i].firstRow in m;
    }
    forall r | r in m
      ensures 2 <= r <= |rows| && 0 <= sel.valueCol < |rows[r - 1].cells|
    {
      var i :| 0 <= i < |g.groups| && Multi(g.groups[i]) && g.groups[i].firstRow == r;
    }
  }

  /** The position of the last c in s. */
  function LastIndexOf(s: string, c: char): (r: Option<nat>)
    ensures r.Some? ==> r.value < |s| && s[r.value] == c && forall k :: r.value < k < |s| ==> s[k] != c
    ensures r.None? ==> forall k :: 0 <= k < |s| ==> s[k] != c
    decreases |s|
  {
    if s == [] then None
    else if s[|s| - 1] == c then Some(|s| - 1)
    else LastIndexOf(s[..|s| - 1], c)
  }

  /** file_path.rsplit('.', 1)[0] + '_processed.xlsx' */
  function OutputPath(filePath: string): string
  {
    var stem := match LastIndexOf(filePath, '.') case None => filePath case Some(i) => filePath[..i];
    stem + "_processed.xlsx"
  }

  /** The last extension is replaced: "a.b.xlsx" becomes "a.b_processed.xlsx". */
  lemma OutputPathReplacesExtension(stem: string, ext: string)
    requires '.' !in ext
    ensures OutputPath(stem + "." + ext) == stem + "_processed.xlsx"
  {
    var p := stem + "." + ext;
    assert p[|stem|] == '.';
    assert forall k :: |stem| < k < |p| ==> p[k] == ext[k - |stem| - 1];
    assert LastIndexOf(p, '.') == Some(|stem|);
    assert p[..|stem|] == stem;
  }

  /** A path without a dot keeps its whole name: "data" becomes "data_processed.xlsx". */
  lemma OutputPathWithoutDot(path: string)
    requires '.' !in path
    ensures OutputPath(path) == path + "_processed.xlsx"
  {
  }

  /** ws.iter_rows(min_row=2): the cells of sheet rows 2, 3, ... */
  function DataRows(rows: seq<Row>): (data: seq<seq<Cell>>)
    ensures |data| == if rows == [] then 0 else |rows| - 1
    ensures forall i :: 0 <= i < |data| ==> data[i] == rows[i + 1].cells
  {
    if rows == [] then [] else seq(|rows| - 1, i requires 0 <= i < |rows| - 1 => rows[i + 1].cells)
  }

  /**
   * process_excel on one sheet: the column entries are converted first
   * (BadSelector), then the grouping pass runs (the first row that raises
   * stops it), then the second pass (WriteFailed where a join raises or
   * the value column is below 1 while some group has more than one
   * value), and only then are the repeated rows deleted. On Done the
   * result is the sheet that gets saved.
   */
  function Consolidation(style: KeyStyle, entries: seq<string>, rows: seq<Row>): Outcome<seq<Row>>
    requires |entries| == 4
  {
    match ParseSelection(style, entries)
    case None => Failed(BadSelector)
    case Some(sel) =>
      match Grouped(Classify(style, sel, DataRows(rows)))
      case Failed(f) => Failed(f)
      case Done(g) =>
        match Combination(g.groups)
        case None => Failed(WriteFailed)
        case Some(m) =>
          if m != map[] && sel.valueCol < 0 then Failed(WriteFailed)
          else Done(Survivors(ApplyRows(rows, m, sel.valueCol), g.toDelete, 1))
  }

  /**
   * process_excel: converts the column entries, runs the grouping pass,
   * checks the second pass can complete, writes the combined values and
   * highlights, deletes the repeated rows bottom-up and returns the path
   * the workbook is saved to. The sheet changes only when the whole run
   * succeeds.
   */
  method ProcessExcel(ws: Worksheet, style: KeyStyle, entries: seq<string>, filePath: string) returns (r: Outcome<string>)
    requires |entries| == 4
    modifies ws
    ensures r.Failed? ==> Consolidation(style, entries, old(ws.rows)) == Failed(r.failure) && ws.rows == old(ws.rows)
    ensures r.Done? ==> Consolidation(style, entries, old(ws.rows)) == Done(ws.rows) && r.value == OutputPath(filePath)
  {
    ghost var rows := ws.rows;
    var parsed := ParseSelection(style, entries);
    if parsed.None? {
      return Failed(BadSelector);
    }
    var sel := parsed.value;
    var data := DataRows(ws.rows);
    var grouping := GroupRows(style, sel, data);
    if grouping.Failed? {
      return Failed(grouping.failure);
    }
    var g := grouping.value;
    var combined := Combination(g.groups);
    if combined.None? {
      return Failed(WriteFailed);
    }
    ConsolidationStages(style, entries, rows, sel, g, combined.value);
    if combined.value != map[] && sel.valueCol < 0 {
      return Failed(WriteFailed);
    }
    ClassifyReadsValues(style, sel, rows);
    WrittenAnchorsInRange(Classify(style, sel, data), sel, rows, g, combined.value);
    ws.WriteGroups(g.groups, sel.valueCol);
    ws.DeleteRows(g.toDelete);
    return Done(OutputPath(filePath));
  }

  /**
   * Writing the anchors in m and then deleting the rows in D: the result has
   * |D| fewer rows, and every row not in D survives at its number minus the
   * deleted rows above it, rewritten exactly when it is in m.
   */
  lemma WriteThenDelete(rows: seq<Row>, m: map<int, string>, col: int, D: set<int>)
    requires forall d :: d in D ==> 1 <= d <= |rows|
    requires forall r :: r in m ==> 1 <= r <= |rows| && 0 <= col < |rows[r - 1].cells|
    ensures |Survivors(ApplyRows(rows, m, col), D, 1)| == |rows| - |D|
    ensures forall r :: 1 <= r <= |rows| && r !in D ==>
      0 <= r - 1 - |Below(D, 1, r)| < |Survivors(ApplyRows(rows, m, col), D, 1)| &&
      Survivors(ApplyRows(rows, m, col), D, 1)[r - 1 - |Below(D, 1, r)|] ==
        if r in m then Row(rows[r - 1].cells[col := Str(m[r])], true) else rows[r - 1]
  {
    var applied := ApplyRows(rows, m, col);
    SurvivorsLength(applied, D, 1);
    forall r | 1 <= r <= |rows| && r !in D
      ensures 0 <= r - 1 - |Below(D, 1, r)| < |Survivors(applied, D, 1)|
      ensures Survivors(applied, D, 1)[r - 1 - |Below(D, 1, r)|] ==
        if r in m then Row(rows[r - 1].cells[col := Str(m[r])], true) else rows[r - 1]
    {
      SurvivorAt(applied, D, 1, r);
    }
  }

  /**
   * Once the selection, the grouping and the combination are known, the run
   * fails only where something is to be written and the value column is
   * below 0, and otherwise saves the written sheet without the repeats.
   */
  lemma ConsolidationStages(style: KeyStyle, entries: seq<string>, rows: seq<Row>, sel: Selection, g: Grouping, m: map<int, string>)
    requires |entries| == 4 && ParseSelection(style, entries) == Some(sel)
    requires Grouped(Classify(style, sel, DataRows(rows))) == Done(g)
    requires Combination(g.groups) == Some(m)
    ensures Consolidation(style, entries, rows).Done? <==> m == map[] || sel.valueCol >= 0
    ensures Consolidation(style, entries, rows).Done? ==>
      Consolidation(style, entries, rows).value == Survivors(ApplyRows(rows, m, sel.valueCol), g.toDelete, 1)
    ensures Consolidation(style, entries, rows).Failed? ==> Consolidation(style, entries, rows).failure == WriteFailed
  {
  }

  /**
   * In combineawards.py, once the column entries convert to a value column of
   * 1 or more, the only way the run can fail is the grouping pass: when that
   * pass succeeds the workbook is always saved.
   */
  lemma NormalisedRunSaves(entries: seq<string>, rows: seq<Row>, sel: Selection)
    requires |entries| == 4 && ParseSelection(NormalisedKey, entries) == Some(sel) && sel.valueCol >= 0
    ensures Grouped(Classify(NormalisedKey, sel, DataRows(rows))).Done? ==> Consolidation(NormalisedKey, entries, rows).Done?
    ensures Consolidation(NormalisedKey, entries, rows).Failed? ==>
      Consolidation(NormalisedKey, entries, rows) == Failed(Grouped(Classify(NormalisedKey, sel, DataRows(rows))).failure)
  {
    NormalisedJoinsSucceed(sel, DataRows(rows));
  }

  /**
   * Every group's anchor survives the deletion; for a group with more than
   * one value it is written with the ", "-join of the group's truthy values,
   * and the group's other rows are all deleted.
   */
  lemma ConsolidatedAnchors(outs: seq<RowOutcome>, g: Grouping, m: map<int, string>)
    requires Grouped(outs) == Done(g) && Combination(g.groups) == Some(m)
    ensures forall i :: 0 <= i < |g.groups| && Multi(g.groups[i]) ==>
      var a := g.groups[i].firstRow;
      a !in g.toDelete && a in m && TruthyStrings(g.groups[i].values).Some? &&
      m[a] == Join(TruthyStrings(g.groups[i].values).value, ", ") &&
      forall j :: 1 <= j < |g.groups[i].members| ==> g.groups[i].members[j] in g.toDelete
  {
    GroupedConsistent(outs);
    AnchorsKept(outs, g);
    MembersDeleted(outs, g);
    assert FirstOccurrenceOrder(g.groups);
    CombinationValues(g.groups, m);
  }
}
