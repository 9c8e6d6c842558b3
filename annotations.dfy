/** Annotation records (the entries of `info.mri.atlas`) and the plan of table bindings
    that appendAnnotationTableRow sets up for one record. */
module Annotations {
  import opened Js

  /** One annotation of an image. `annotationType` is the record's `type` field. */
  datatype Annotation = Annotation(
    name: string,
    project: string,
    access: string,
    created: string,
    modified: string,
    filename: string,
    labels: string,
    owner: string,
    annotationType: string)

  const ReadWrite: string := "Read/Write"
  const DefaultLabels: string := "/labels/foreground.json"
  const Volume: string := "volume"
  const NiftiSuffix: string := ".nii.gz"

  /** The record addAnnotation pushes. `date` is the JSON form of the creation time and
      `stem` the random base-36 text from which the filename is made. */
  function NewAnnotation(date: string, stem: string, owner: string): Annotation {
    Annotation("", "", ReadWrite, date, date, stem + NiftiSuffix, DefaultLabels, owner, Volume)
  }

  /** A new record is a read/write volume owned by the current user, labelled with the
      default label set, unnamed, with equal creation and modification times and a
      filename ending in ".nii.gz". */
  lemma NewAnnotationDefaults(date: string, stem: string, owner: string)
    ensures var a := NewAnnotation(date, stem, owner);
      && a.access == "Read/Write" && a.annotationType == "volume"
      && a.labels == "/labels/foreground.json"
      && a.name == "" && a.project == ""
      && a.owner == owner
      && a.created == a.modified == date
      && |a.filename| >= 7 && a.filename[|a.filename| - 7..] == ".nii.gz"
  {
  }

  /** A column of the binding descriptor: `typeOfBinding` (1: display only, 2: display
      and edit) and the record path with a `#` where the record index goes. */
  datatype Column = Column(typeOfBinding: int, path: string)

  datatype BindMode = OneWay | TwoWay

  /** A request to bind1 (OneWay) or bind2 (TwoWay): the record path and the table cell
      (`tr:eq(row) td:eq(col)`). */
  datatype Binding = Binding(mode: BindMode, path: string, row: int, col: nat)

  /** The binding mode a column asks for, if any. */
  function ModeOf(typeOfBinding: int): Option<BindMode> {
    if typeOfBinding == 1 then Some(OneWay)
    else if typeOfBinding == 2 then Some(TwoWay)
    else None
  }

  /** `path.replace("#", index)`. */
  function PathAt(c: Column, index: int): string {
    ReplaceFirst(c.path, '#', IntToString(index))
  }

  /** For a column whose path has a `#`, different record indices give different paths,
      so the paths unbound for one index never name another record. */
  lemma PathAtInjective(c: Column, i: int, j: int)
    requires '#' in c.path
    ensures PathAt(c, i) == PathAt(c, j) <==> i == j
  {
    if PathAt(c, i) == PathAt(c, j) {
      ReplaceFirstInjective(c.path, '#', IntToString(i), IntToString(j));
      IntToStringInjective(i, j);
    }
  }

  /** The bindings the `switch` of appendAnnotationTableRow asks for on column icol: the
      path at record index pathIndex, bound to row irow + 1 (row 0 is the header). */
  function ColumnBinding(c: Column, icol: nat, pathIndex: int, irow: int): seq<Binding> {
    match ModeOf(c.typeOfBinding)
    case None => []
    case Some(m) => [Binding(m, PathAt(c, pathIndex), irow + 1, icol)]
  }

  /** The bindings requested for the columns of t, in column order. */
  function BindingPlan(t: seq<Column>, pathIndex: int, irow: int): seq<Binding> {
    if t == [] then []
    else BindingPlan(t[..|t| - 1], pathIndex, irow) + ColumnBinding(t[|t| - 1], |t| - 1, pathIndex, irow)
  }

  /** Each binding of plan is for a column of t that asks for that mode, at the column's
      path with pathIndex substituted, on row irow + 1. */
  predicate BindsColumns(plan: seq<Binding>, t: seq<Column>, pathIndex: int, irow: int) {
    forall k :: 0 <= k < |plan| ==>
      && plan[k].col < |t|
      && ModeOf(t[plan[k].col].typeOfBinding) == Some(plan[k].mode)
      && plan[k].path == PathAt(t[plan[k].col], pathIndex)
      && plan[k].row == irow + 1
  }

  /** The columns of plan strictly increase, so no cell is bound twice. */
  predicate ColumnsIncrease(plan: seq<Binding>) {
    forall i, j :: 0 <= i < j < |plan| ==> plan[i].col < plan[j].col
  }

  /** Every planned binding is one a column asks for, and they come in column order. */
  lemma {:induction false} BindingPlanSound(t: seq<Column>, pathIndex: int, irow: int)
    ensures BindsColumns(BindingPlan(t, pathIndex, irow), t, pathIndex, irow)
    ensures ColumnsIncrease(BindingPlan(t, pathIndex, irow))
  {
    if t != [] {
      var init := t[..|t| - 1];
      BindingPlanSound(init, pathIndex, irow);
      var p := BindingPlan(init, pathIndex, irow);
      var plan := BindingPlan(t, pathIndex, irow);
      assert plan == p + ColumnBinding(t[|t| - 1], |t| - 1, pathIndex, irow);
      forall k | 0 <= k < |p|
        ensures plan[k] == p[k] && p[k].col < |t| - 1 && t[p[k].col] == init[p[k].col]
      {
      }
    }
  }

  /** Handling one more column appends that column's bindings to the plan. */
  lemma BindingPlanSnoc(t: seq<Column>, icol: nat, pathIndex: int, irow: int)
    requires icol < |t|
    ensures BindingPlan(t[..icol + 1], pathIndex, irow)
         == BindingPlan(t[..icol], pathIndex, irow) + ColumnBinding(t[icol], icol, pathIndex, irow)
  {
    assert t[..icol + 1][..icol] == t[..icol];
  }

  /** Every column that asks for a binding gets one. */
  lemma {:induction false} BindingPlanComplete(t: seq<Column>, pathIndex: int, irow: int, icol: nat)
    requires icol < |t| && ModeOf(t[icol].typeOfBinding).Some?
    ensures exists k :: 0 <= k < |BindingPlan(t, pathIndex, irow)| && BindingPlan(t, pathIndex, irow)[k].col == icol
  {
    var p := BindingPlan(t[..|t| - 1], pathIndex, irow);
    if icol == |t| - 1 {
      assert BindingPlan(t, pathIndex, irow)[|p|].col == icol;
    } else {
      assert t[..|t| - 1][icol] == t[icol];
      BindingPlanComplete(t[..|t| - 1], pathIndex, irow, icol);
      var k :| 0 <= k < |p| && p[k].col == icol;
      assert BindingPlan(t, pathIndex, irow)[k] == p[k];
    }
  }

  /** The paths removeAnnotation unbinds: every column's path at record index irow. */
  function UnbindPaths(t: seq<Column>, irow: int): (paths: seq<string>)
    ensures |paths| == |t|
  {
    seq(|t|, k requires 0 <= k < |t| => PathAt(t[k], irow))
  }

  /** Handling one more column appends its path to the unbinding list. */
  lemma UnbindPathsSnoc(t: seq<Column>, icol: nat, irow: int)
    requires icol < |t|
    ensures UnbindPaths(t[..icol + 1], irow) == UnbindPaths(t[..icol], irow) + [PathAt(t[icol], irow)]
  {
  }
}
