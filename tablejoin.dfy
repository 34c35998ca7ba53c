/** The join editor (`components/TableJoin.js`): the list of table slots,
    the list of join conditions, the handlers that replace them and the
    button guards. Each handler is a function from the state before to the
    state after. */
module TableJoin {
  datatype SelectedTable = SelectedTable(table: string, columns: seq<string>)

  datatype JoinCondition = JoinCondition(
    leftTable: string, leftColumn: string, rightTable: string, rightColumn: string, joinType: string)

  /** The keys a condition's input fields write. */
  datatype ConditionField = LeftTable | LeftColumn | RightTable | RightColumn | Type

  datatype JoinState = JoinState(
    tables: seq<string>, selectedTables: seq<SelectedTable>, joinConditions: seq<JoinCondition>, loading: bool)

  const EmptySlot := SelectedTable("", [])
  const DefaultCondition := JoinCondition("", "", "", "", "INNER")

  /** `handleAddTable`: one more empty slot, while there are fewer slots than
      tables to choose from. */
  function AddTable(st: JoinState): (r: JoinState)
    ensures |st.selectedTables| < |st.tables| ==> r == st.(selectedTables := st.selectedTables + [EmptySlot])
    ensures |st.selectedTables| >= |st.tables| ==> r == st
  {
    if |st.selectedTables| < |st.tables| then st.(selectedTables := st.selectedTables + [EmptySlot]) else st
  }

  /** Slots never outnumber the tables, however often a slot is added. */
  lemma AddTableKeepsBound(st: JoinState)
    requires |st.selectedTables| <= |st.tables|
    ensures |AddTable(st).selectedTables| <= |AddTable(st).tables|
    ensures |AddTable(st).selectedTables| == |st.tables| ==> AddTable(AddTable(st)) == AddTable(st)
  {
  }

  /** `handleAddJoinCondition`: an INNER join with empty fields, once two
      tables are selected. */
  function AddJoinCondition(st: JoinState): (r: JoinState)
    ensures |st.selectedTables| >= 2 ==> r == st.(joinConditions := st.joinConditions + [DefaultCondition])
    ensures |st.selectedTables| < 2 ==> r == st
  {
    if |st.selectedTables| >= 2 then st.(joinConditions := st.joinConditions + [DefaultCondition]) else st
  }

  /** `filter((_, i) => i !== index)`: the list without position `index`. */
  function DropIndex<T>(s: seq<T>, index: int): seq<T>
    decreases |s|
  {
    if s == [] then []
    else DropIndex(s[..|s| - 1], index) + (if |s| - 1 != index then [s[|s| - 1]] else [])
  }

  /** Dropping a position keeps every other element in its order; a position
      outside the list drops nothing. */
  lemma {:induction false} DropIndexShape<T>(s: seq<T>, index: int)
    ensures DropIndex(s, index) == if 0 <= index < |s| then s[..index] + s[index + 1..] else s
    decreases |s|
  {
    if s != [] {
      var init := s[..|s| - 1];
      DropIndexShape(init, index);
      if 0 <= index < |s| - 1 {
        assert init[..index] + init[index + 1..] + [s[|s| - 1]] == s[..index] + s[index + 1..];
      } else if index == |s| - 1 {
        assert init == s[..index] + s[index + 1..];
      } else {
        assert init + [s[|s| - 1]] == s;
      }
    }
  }

  /** `handleRemoveTable`: removes slot `index` and the condition at the same
      position, if there is one. */
  function RemoveTable(st: JoinState, index: int): (r: JoinState)
    ensures r.tables == st.tables && r.loading == st.loading
  {
    st.(selectedTables := DropIndex(st.selectedTables, index),
        joinConditions := DropIndex(st.joinConditions, index))
  }

  lemma RemoveTableEffect(st: JoinState, index: int)
    ensures var r := RemoveTable(st, index);
      (0 <= index < |st.selectedTables| ==>
        r.selectedTables == st.selectedTables[..index] + st.selectedTables[index + 1..]) &&
      (0 <= index < |st.joinConditions| ==>
        r.joinConditions == st.joinConditions[..index] + st.joinConditions[index + 1..]) &&
      (index >= |st.joinConditions| ==> r.joinConditions == st.joinConditions)
  {
    DropIndexShape(st.selectedTables, index);
    DropIndexShape(st.joinConditions, index);
  }

  /** Removing one of two tables leaves their condition behind, and both
      buttons off. */
  lemma RemoveTableLeavesCondition(a: SelectedTable, b: SelectedTable, c: JoinCondition)
    ensures var st := JoinState(["x", "y"], [a, b], [c], false);
      var r := RemoveTable(st, 1);
      r.selectedTables == [a] && r.joinConditions == [c] && !PreviewEnabled(r) && !CompleteEnabled(r)
  {
    RemoveTableEffect(JoinState(["x", "y"], [a, b], [c], false), 1);
  }

  /** `handleTableChange`: sets the table of slot `index`, keeping its
      columns. The form only offers indices of existing slots. */
  function TableChange(st: JoinState, index: int, table: string): (r: JoinState)
    requires 0 <= index < |st.selectedTables|
    ensures |r.selectedTables| == |st.selectedTables|
    ensures r.selectedTables[index] == SelectedTable(table, st.selectedTables[index].columns)
    ensures forall i :: 0 <= i < |r.selectedTables| && i != index ==> r.selectedTables[i] == st.selectedTables[i]
    ensures r.tables == st.tables && r.joinConditions == st.joinConditions && r.loading == st.loading
  {
    st.(selectedTables := st.selectedTables[index := st.selectedTables[index].(table := table)])
  }

  function SetField(c: JoinCondition, field: ConditionField, value: string): JoinCondition
  {
    match field
    case LeftTable => c.(leftTable := value)
    case LeftColumn => c.(leftColumn := value)
    case RightTable => c.(rightTable := value)
    case RightColumn => c.(rightColumn := value)
    case Type => c.(joinType := value)
  }

  /** Writing a field and reading it back gives the value written; the other
      four fields are untouched. */
  lemma SetFieldReads(c: JoinCondition, field: ConditionField, value: string)
    ensures var d := SetField(c, field, value);
      (d.leftTable == if field == LeftTable then value else c.leftTable) &&
      (d.leftColumn == if field == LeftColumn then value else c.leftColumn) &&
      (d.rightTable == if field == RightTable then value else c.rightTable) &&
      (d.rightColumn == if field == RightColumn then value else c.rightColumn) &&
      (d.joinType == if field == Type then value else c.joinType)
  {
  }

  /** `handleJoinConditionChange`: sets one field of condition `index`. */
  function JoinConditionChange(st: JoinState, index: int, field: ConditionField, value: string): (r: JoinState)
    requires 0 <= index < |st.joinConditions|
    ensures |r.joinConditions| == |st.joinConditions|
    ensures r.joinConditions[index] == SetField(st.joinConditions[index], field, value)
    ensures forall i :: 0 <= i < |r.joinConditions| && i != index ==> r.joinConditions[i] == st.joinConditions[i]
    ensures r.tables == st.tables && r.selectedTables == st.selectedTables && r.loading == st.loading
  {
    st.(joinConditions := st.joinConditions[index := SetField(st.joinConditions[index], field, value)])
  }

  /** The Preview button is enabled when nothing loads and two tables are
      selected. */
  predicate PreviewEnabled(st: JoinState)
  {
    !(st.loading || |st.selectedTables| < 2)
  }

  /** The Complete button also needs a join condition. */
  predicate CompleteEnabled(st: JoinState)
  {
    !(st.loading || |st.selectedTables| < 2 || |st.joinConditions| == 0)
  }

  /** Complete is never on while Preview is off, and adding a condition
      where Preview is on turns Complete on. */
  lemma GuardsOrdered(st: JoinState)
    ensures CompleteEnabled(st) ==> PreviewEnabled(st)
    ensures PreviewEnabled(st) ==> CompleteEnabled(AddJoinCondition(st))
    ensures !PreviewEnabled(st) && !st.loading ==> AddJoinCondition(st) == st
  {
  }
}
