/** The column picker (`components/ColumnSelection.js`): toggling one
    column, selecting or clearing all, and the guards of the header checkbox
    and the confirm button. */
module ColumnSelection {
  import opened Seqs

  predicate Distinct(s: seq<string>)
  {
    forall i, j :: 0 <= i < j < |s| ==> s[i] != s[j]
  }

  /** `handleToggle`: a selected column is removed wherever it occurs, any
      other is appended at the end. */
  function Toggle(selected: seq<string>, column: string): (r: seq<string>)
    ensures column in selected ==> column !in r
    ensures column !in selected ==> r == selected + [column]
  {
    if column in selected then
      var r := Filter(selected, c => c != column);
      FilterMembers(selected, c => c != column, column);
      r
    else selected + [column]
  }

  /** Toggling keeps every other column's membership. */
  lemma ToggleOthers(selected: seq<string>, column: string, x: string)
    requires x != column
    ensures x in Toggle(selected, column) <==> x in selected
  {
    if column in selected {
      FilterMembers(selected, c => c != column, x);
    }
  }

  /** Toggling an unselected column twice restores the selection exactly. */
  lemma ToggleTwiceAbsent(selected: seq<string>, column: string)
    requires column !in selected
    ensures Toggle(Toggle(selected, column), column) == selected
  {
    var keep := c => c != column;
    FilterAppend(selected, [column], keep);
    assert forall i :: 0 <= i < |selected| ==> keep(selected[i]) by {
      forall i | 0 <= i < |selected| ensures keep(selected[i]) { assert selected[i] in selected; }
    }
    FilterAllKept(selected, keep);
    assert Filter([column], keep) == [] by { assert [column][..0] == []; }
  }

  /** Toggling a selected column twice restores the set of selected columns
      (the column moves to the end, and its duplicates are gone). */
  lemma ToggleTwicePresent(selected: seq<string>, column: string, x: string)
    requires column in selected
    ensures x in Toggle(Toggle(selected, column), column) <==> x in selected
  {
    var once := Toggle(selected, column);
    if x != column {
      ToggleOthers(selected, column, x);
      ToggleOthers(once, column, x);
    }
  }

  lemma DistinctSnoc(s: seq<string>, x: string)
    ensures Distinct(s + [x]) <==> Distinct(s) && x !in s
  {
    var t := s + [x];
    assert forall i :: 0 <= i < |s| ==> t[i] == s[i];
    assert t[|s|] == x;
  }

  lemma {:induction false} FilterDistinct(s: seq<string>, keep: string -> bool)
    requires Distinct(s)
    ensures Distinct(Filter(s, keep))
    decreases |s|
  {
    if s != [] {
      var init := s[..|s| - 1];
      var last := s[|s| - 1];
      assert s == init + [last];
      DistinctSnoc(init, last);
      FilterDistinct(init, keep);
      if keep(last) {
        FilterMembers(init, keep, last);
        DistinctSnoc(Filter(init, keep), last);
      }
    }
  }

  /** A selection without duplicates stays without duplicates. */
  lemma ToggleKeepsDistinct(selected: seq<string>, column: string)
    requires Distinct(selected)
    ensures Distinct(Toggle(selected, column))
  {
    if column in selected {
      FilterDistinct(selected, c => c != column);
    } else {
      DistinctSnoc(selected, column);
    }
  }

  /** `handleSelectAll`: all columns when the header box is ticked, none when
      it is cleared. */
  function SelectAll(columns: seq<string>, checked: bool): (r: seq<string>)
    ensures checked ==> r == columns
    ensures !checked ==> r == []
  {
    if checked then columns else []
  }

  /** The header checkbox is ticked when as many columns are selected as
      there are. */
  predicate HeaderChecked(selected: seq<string>, columns: seq<string>)
  {
    |selected| == |columns|
  }

  /** The header checkbox shows a dash while some but not all are selected. */
  predicate HeaderIndeterminate(selected: seq<string>, columns: seq<string>)
  {
    |selected| > 0 && |selected| < |columns|
  }

  /** Confirm is off while nothing is selected. */
  predicate ConfirmDisabled(selected: seq<string>)
  {
    |selected| == 0
  }

  /** After select-all the header box is ticked and Confirm is on unless
      there are no columns; after clearing, the box is clear and Confirm
      is off. */
  lemma SelectAllGuards(columns: seq<string>)
    ensures HeaderChecked(SelectAll(columns, true), columns)
    ensures !HeaderIndeterminate(SelectAll(columns, true), columns)
    ensures ConfirmDisabled(SelectAll(columns, true)) <==> columns == []
    ensures ConfirmDisabled(SelectAll(columns, false))
    ensures !HeaderIndeterminate(SelectAll(columns, false), columns)
  {
  }

  function Elements(s: seq<string>): set<string>
  {
    set x | x in s
  }

  lemma {:induction false} DistinctCard(s: seq<string>)
    requires Distinct(s)
    ensures |Elements(s)| == |s|
    decreases |s|
  {
    if s != [] {
      var init := s[..|s| - 1];
      assert s == init + [s[|s| - 1]];
      DistinctSnoc(init, s[|s| - 1]);
      DistinctCard(init);
      assert Elements(s) == Elements(init) + {s[|s| - 1]};
    }
  }

  lemma SubsetSameSize(a: set<string>, b: set<string>)
    requires a <= b && |a| == |b|
    ensures a == b
  {
    if a != b {
      var x :| x in b && x !in a;
      SubsetCard(a, b - {x});
    }
  }

  lemma SubsetCard(a: set<string>, b: set<string>)
    requires a <= b
    ensures |a| <= |b|
    decreases |a|
  {
    if a != {} {
      var y :| y in a;
      SubsetCard(a - {y}, b - {y});
    }
  }

  /** A selection drawn from the current columns, without duplicates, ticks
      the header box exactly when every column is selected. */
  lemma HeaderCheckedMeansAll(selected: seq<string>, columns: seq<string>)
    requires Distinct(selected) && Distinct(columns)
    requires forall x :: x in selected ==> x in columns
    ensures HeaderChecked(selected, columns) <==> forall x :: x in columns ==> x in selected
  {
    DistinctCard(selected);
    DistinctCard(columns);
    if HeaderChecked(selected, columns) {
      SubsetSameSize(Elements(selected), Elements(columns));
      forall x | x in columns ensures x in selected {
        assert x in Elements(columns);
      }
    }
    assert (forall x :: x in columns ==> x in selected) ==> Elements(selected) == Elements(columns);
  }

  /** The header box goes by counts only: a column left over from an earlier
      column list ticks it although a current column is not selected. */
  lemma HeaderCheckedByCount()
    ensures HeaderChecked(["old"], ["new"]) && "new" !in ["old"]
  {
  }
}
