/** A report's chart: the rows' values summed per label and series. */
module ReportChart {
  import opened Slices

  /** A cell as it prints and as it counts. */
  datatype Cell = Cell(text: string, number: real)

  type Row = map<string, Cell>

  datatype ChartSpec = ChartSpec(x: string, y: string, group: string)

  datatype Point = Point(title: string, values: map<string, real>)

  datatype Chart = Chart(series: seq<string>, points: seq<Point>)

  // ---------------------------------------------------------------- one row

  predicate Charted(spec: ChartSpec, row: Row) {
    spec.x in row
  }

  function LabelOf(spec: ChartSpec, row: Row): string
    requires Charted(spec, row)
  {
    row[spec.x].text
  }

  function SeriesOf(spec: ChartSpec, row: Row): string {
    if spec.group != "" then if spec.group in row then row[spec.group].text else "<nil>"
    else if spec.y != "" then spec.y
    else "count"
  }

  function ValueOf(spec: ChartSpec, row: Row): real {
    if spec.y == "" then 1.0 else if spec.y in row then row[spec.y].number else 0.0
  }

  /** What a row adds to one label and series. */
  function Contribution(spec: ChartSpec, row: Row, title: string, name: string): real {
    if Charted(spec, row) && LabelOf(spec, row) == title && SeriesOf(spec, row) == name then ValueOf(spec, row) else 0.0
  }

  // ---------------------------------------------------------------- sums over rows

  function SumAt(spec: ChartSpec, rows: seq<Row>, title: string, name: string): real {
    if rows == [] then 0.0
    else SumAt(spec, rows[..|rows| - 1], title, name) + Contribution(spec, rows[|rows| - 1], title, name)
  }

  function Total(spec: ChartSpec, rows: seq<Row>): real {
    if rows == [] then 0.0
    else Total(spec, rows[..|rows| - 1]) + if Charted(spec, rows[|rows| - 1]) then ValueOf(spec, rows[|rows| - 1]) else 0.0
  }

  ghost function Cells(spec: ChartSpec, rows: seq<Row>): set<(string, string)> {
    set row | row in rows && Charted(spec, row) :: (LabelOf(spec, row), SeriesOf(spec, row))
  }

  /** What one more row adds to a label and series: its Y, or one where rows are counted, if it has
      that label and, by its group, its Y or the count, that series. */
  lemma RowAdds(spec: ChartSpec, rows: seq<Row>, row: Row, title: string, name: string)
    ensures SumAt(spec, [], title, name) == 0.0
    ensures spec.x !in row ==> SumAt(spec, rows + [row], title, name) == SumAt(spec, rows, title, name)
    ensures spec.x in row ==>
              SumAt(spec, rows + [row], title, name) - SumAt(spec, rows, title, name) ==
                if title != row[spec.x].text then 0.0
                else if spec.group != "" && spec.group in row && name != row[spec.group].text then 0.0
                else if spec.group != "" && spec.group !in row && name != "<nil>" then 0.0
                else if spec.group == "" && spec.y != "" && name != spec.y then 0.0
                else if spec.group == "" && spec.y == "" && name != "count" then 0.0
                else if spec.y == "" then 1.0
                else if spec.y in row then row[spec.y].number
                else 0.0
  {
    assert (rows + [row])[..|rows|] == rows;
  }

  /** The labels and series charted are those of the rows that have a label. */
  lemma CellsIff(spec: ChartSpec, rows: seq<Row>, title: string, name: string)
    ensures (title, name) in Cells(spec, rows) <==>
            exists row: Row :: row in rows && spec.x in row && row[spec.x].text == title &&
              name == (if spec.group != "" then (if spec.group in row then row[spec.group].text else "<nil>")
                       else if spec.y != "" then spec.y else "count")
  {
  }

  // ---------------------------------------------------------------- accumulating

  type Points = map<string, map<string, real>>

  ghost predicate Holds(points: Points, l: string, n: string) {
    l in points && n in points[l]
  }

  /** The nested map has a value exactly for the labels and series of the rows. */
  ghost predicate HoldsCells(points: Points, cells: set<(string, string)>) {
    && (forall l, n :: Holds(points, l, n) <==> (l, n) in cells)
    && (forall l :: l in points ==> points[l] != map[])
  }

  ghost predicate HoldsSums(spec: ChartSpec, rows: seq<Row>, points: Points) {
    forall l, n :: Holds(points, l, n) ==> points[l][n] == SumAt(spec, rows, l, n)
  }

  ghost predicate HoldsSeries(series: set<string>, cells: set<(string, string)>) {
    forall n :: n in series <==> exists l :: (l, n) in cells
  }

  lemma CellsLast(spec: ChartSpec, rows: seq<Row>, row: Row)
    ensures Cells(spec, rows + [row]) ==
            Cells(spec, rows) + if Charted(spec, row) then {(LabelOf(spec, row), SeriesOf(spec, row))} else {}
  {
    var more := rows + [row];
    assert forall r :: r in more <==> r in rows || r == row;
  }

  lemma {:induction false} SumOutside(spec: ChartSpec, rows: seq<Row>, title: string, name: string)
    requires (title, name) !in Cells(spec, rows)
    ensures SumAt(spec, rows, title, name) == 0.0
  {
    if rows != [] {
      var init, row := rows[..|rows| - 1], rows[|rows| - 1];
      assert rows == init + [row];
      CellsLast(spec, init, row);
      SumOutside(spec, init, title, name);
    }
  }

  lemma SumLast(spec: ChartSpec, rows: seq<Row>, row: Row, title: string, name: string)
    ensures SumAt(spec, rows + [row], title, name) == SumAt(spec, rows, title, name) + Contribution(spec, row, title, name)
  {
    assert (rows + [row])[..|rows|] == rows;
  }

  lemma UnchartedRow(spec: ChartSpec, rows: seq<Row>, row: Row, points: Points)
    requires HoldsSums(spec, rows, points) && !Charted(spec, row)
    ensures HoldsSums(spec, rows + [row], points) && Cells(spec, rows + [row]) == Cells(spec, rows)
  {
    CellsLast(spec, rows, row);
    forall l, n | Holds(points, l, n)
      ensures points[l][n] == SumAt(spec, rows + [row], l, n)
    {
      SumLast(spec, rows, row, l, n);
    }
  }

  function At(points: Points, l: string): map<string, real> {
    if l in points then points[l] else map[]
  }

  function Added(points: Points, l: string, n: string, value: real): Points {
    var values := At(points, l);
    points[l := values[n := (if n in values then values[n] else 0.0) + value]]
  }

  lemma AddedCells(points: Points, cells: set<(string, string)>, l: string, n: string, value: real)
    requires HoldsCells(points, cells)
    ensures HoldsCells(Added(points, l, n, value), cells + {(l, n)})
  {
    var added := Added(points, l, n, value);
    forall l', n'
      ensures Holds(added, l', n') <==> Holds(points, l', n') || (l', n') == (l, n)
    {
    }
    assert n in added[l];
  }

  lemma AddedSums(spec: ChartSpec, rows: seq<Row>, row: Row, points: Points)
    requires Charted(spec, row) && HoldsSums(spec, rows, points) && HoldsCells(points, Cells(spec, rows))
    ensures HoldsSums(spec, rows + [row], Added(points, LabelOf(spec, row), SeriesOf(spec, row), ValueOf(spec, row)))
  {
    var l, n := LabelOf(spec, row), SeriesOf(spec, row);
    var added := Added(points, l, n, ValueOf(spec, row));
    forall l', n' | Holds(added, l', n')
      ensures added[l'][n'] == SumAt(spec, rows + [row], l', n')
    {
      SumLast(spec, rows, row, l', n');
      if (l', n') == (l, n) {
        if !Holds(points, l, n) {
          SumOutside(spec, rows, l, n);
        }
      } else {
        assert Holds(points, l', n');
      }
    }
  }

  method Accumulate(spec: ChartSpec, rows: seq<Row>) returns (points: Points, series: set<string>)
    ensures HoldsCells(points, Cells(spec, rows)) && HoldsSums(spec, rows, points) && HoldsSeries(series, Cells(spec, rows))
  {
    points, series := map[], {};
    for i := 0 to |rows|
      invariant HoldsCells(points, Cells(spec, rows[..i])) && HoldsSums(spec, rows[..i], points)
      invariant HoldsSeries(series, Cells(spec, rows[..i]))
    {
      var row := rows[i];
      assert rows[..i + 1] == rows[..i] + [row];
      if !Charted(spec, row) {
        UnchartedRow(spec, rows[..i], row, points);
        continue;
      }
      var l, n, value := LabelOf(spec, row), SeriesOf(spec, row), ValueOf(spec, row);
      CellsLast(spec, rows[..i], row);
      AddedCells(points, Cells(spec, rows[..i]), l, n, value);
      AddedSums(spec, rows[..i], row, points);
      SeriesLast(series, Cells(spec, rows[..i]), l, n);
      points := Added(points, l, n, value);
      series := series + {n};
    }
    assert rows[..|rows|] == rows;
  }

  lemma SeriesLast(series: set<string>, cells: set<(string, string)>, l: string, n: string)
    requires HoldsSeries(series, cells)
    ensures HoldsSeries(series + {n}, cells + {(l, n)})
  {
    assert (l, n) in cells + {(l, n)};
    forall n' | n' in series
      ensures exists l' :: (l', n') in cells + {(l, n)}
    {
      var l' :| (l', n') in cells;
      assert (l', n') in cells + {(l, n)};
    }
  }

  // ---------------------------------------------------------------- chartOf

  predicate StrictlyIncreasing(s: seq<string>) {
    forall i, j :: 0 <= i < j < |s| ==> Before(s[i], s[j]) && s[i] != s[j]
  }

  lemma OnceEachIncreasing(s: seq<string>, items: set<string>)
    requires Sorted(s) && OnceEach(s, items)
    ensures StrictlyIncreasing(s) && forall x :: x in s <==> x in items
  {
    forall i, j | 0 <= i < j < |s|
      ensures s[i] != s[j]
    {
      if s[i] == s[j] {
        TwiceCounted(s, i, j);
      }
    }
    forall x
      ensures x in s <==> x in items
    {
      assert x in s <==> x in multiset(s);
    }
  }

  lemma TwiceCounted(s: seq<string>, i: nat, j: nat)
    requires i < j < |s| && s[i] == s[j]
    ensures multiset(s)[s[i]] >= 2
  {
    assert s == s[..j] + [s[j]] + s[j + 1..];
    assert s[..j][i] == s[i];
    assert s[i] in multiset(s[..j]);
  }

  ghost function Labels(points: seq<Point>): seq<string> {
    seq(|points|, i requires 0 <= i < |points| => points[i].title)
  }

  /** A point shows, for its label, exactly the series of the rows with that label and their sums. */
  ghost predicate Shows(spec: ChartSpec, rows: seq<Row>, p: Point) {
    && (forall n :: n in p.values <==> (p.title, n) in Cells(spec, rows))
    && (forall n :: n in p.values ==> p.values[n] == SumAt(spec, rows, p.title, n))
  }

  ghost predicate Charts(spec: ChartSpec, rows: seq<Row>, chart: Chart) {
    && StrictlyIncreasing(Labels(chart.points)) && StrictlyIncreasing(chart.series)
    && (forall p :: p in chart.points ==> Shows(spec, rows, p))
    && (forall l :: l in Labels(chart.points) <==> exists n :: (l, n) in Cells(spec, rows))
    && (forall n :: n in chart.series <==> exists l :: (l, n) in Cells(spec, rows))
  }

  method Ordered(items: set<string>) returns (s: seq<string>)
    ensures StrictlyIncreasing(s) && forall x :: x in s <==> x in items
  {
    var listed := Listed(items);
    OnceEachSorted(listed, items);
    s := Sort(listed);
    OnceEachIncreasing(s, items);
  }

  lemma KeysHoldLabels(points: Points, cells: set<(string, string)>, l: string)
    requires HoldsCells(points, cells)
    ensures l in points <==> exists n :: (l, n) in cells
  {
    if l in points {
      var n :| n in points[l];
      assert Holds(points, l, n);
    }
    if n :| (l, n) in cells {
      assert Holds(points, l, n);
    }
  }

  method ChartOf(spec: ChartSpec, rows: seq<Row>) returns (chart: Chart)
    ensures Charts(spec, rows, chart)
    ensures forall i, j :: 0 <= i < j < |chart.points| ==> Before(chart.points[i].title, chart.points[j].title)
    ensures forall i, j :: 0 <= i < j < |chart.series| ==> Before(chart.series[i], chart.series[j])
  {
    hide Before, SumAt, SeriesOf, LabelOf, ValueOf, Shows, Labels;
    var points, series := Accumulate(spec, rows);
    var labels := Ordered(points.Keys);
    var names := Ordered(series);
    var listed := PointsFor(labels, points);
    chart := Chart(names, listed);
    ghost var cells := Cells(spec, rows);
    forall l
      ensures l in labels <==> exists n :: (l, n) in cells
    {
      KeysHoldLabels(points, cells, l);
    }
    forall p | p in listed
      ensures Shows(spec, rows, p)
    {
      PointShows(spec, rows, points, p);
    }
    InLabelOrder(listed);
  }

  lemma InLabelOrder(points: seq<Point>)
    requires StrictlyIncreasing(Labels(points))
    ensures forall i, j :: 0 <= i < j < |points| ==> Before(points[i].title, points[j].title)
  {
    forall i, j | 0 <= i < j < |points|
      ensures Before(points[i].title, points[j].title)
    {
      assert Labels(points)[i] == points[i].title && Labels(points)[j] == points[j].title;
    }
  }

  lemma PointShows(spec: ChartSpec, rows: seq<Row>, points: Points, p: Point)
    requires HoldsCells(points, Cells(spec, rows)) && HoldsSums(spec, rows, points)
    requires p.title in points && p.values == points[p.title]
    ensures Shows(spec, rows, p)
  {
    forall n
      ensures n in p.values <==> (p.title, n) in Cells(spec, rows)
      ensures n in p.values ==> p.values[n] == SumAt(spec, rows, p.title, n)
    {
      assert Holds(points, p.title, n) <==> n in p.values;
    }
  }

  method PointsFor(labels: seq<string>, points: Points) returns (listed: seq<Point>)
    requires forall l :: l in labels ==> l in points
    ensures Labels(listed) == labels
    ensures forall p :: p in listed ==> p.title in points && p.values == points[p.title]
  {
    listed := [];
    for i := 0 to |labels|
      invariant |listed| == i
      invariant forall j :: 0 <= j < i ==> listed[j] == Point(labels[j], points[labels[j]])
    {
      listed := listed + [Point(labels[i], points[labels[i]])];
    }
  }

  // ---------------------------------------------------------------- conservation

  ghost function AtPoint(p: Point, name: string): real {
    if name in p.values then p.values[name] else 0.0
  }

  ghost function PointTotal(p: Point, series: seq<string>): real {
    if series == [] then 0.0 else PointTotal(p, series[..|series| - 1]) + AtPoint(p, series[|series| - 1])
  }

  /** All the values of the chart together. */
  ghost function ChartTotal(points: seq<Point>, series: seq<string>): real {
    if points == [] then 0.0
    else ChartTotal(points[..|points| - 1], series) + PointTotal(points[|points| - 1], series)
  }

  ghost function RowOver(spec: ChartSpec, rows: seq<Row>, title: string, series: seq<string>): real {
    if series == [] then 0.0
    else RowOver(spec, rows, title, series[..|series| - 1]) + SumAt(spec, rows, title, series[|series| - 1])
  }

  ghost function GridOver(spec: ChartSpec, rows: seq<Row>, labels: seq<string>, series: seq<string>): real {
    if labels == [] then 0.0
    else GridOver(spec, rows, labels[..|labels| - 1], series) + RowOver(spec, rows, labels[|labels| - 1], series)
  }

  ghost predicate Unique(s: seq<string>) {
    forall i, j :: 0 <= i < j < |s| ==> s[i] != s[j]
  }

  lemma {:induction false} RowOverLast(spec: ChartSpec, rows: seq<Row>, row: Row, title: string, series: seq<string>)
    requires Unique(series)
    ensures RowOver(spec, rows + [row], title, series) ==
            RowOver(spec, rows, title, series)
            + if Charted(spec, row) && LabelOf(spec, row) == title && SeriesOf(spec, row) in series then ValueOf(spec, row) else 0.0
  {
    assert (rows + [row])[..|rows|] == rows;
    if series != [] {
      var init, n := series[..|series| - 1], series[|series| - 1];
      RowOverLast(spec, rows, row, title, init);
      assert series == init + [n];
      assert n !in init;
    }
  }

  lemma {:induction false} GridOverLast(spec: ChartSpec, rows: seq<Row>, row: Row, labels: seq<string>, series: seq<string>)
    requires Unique(series) && Unique(labels)
    ensures GridOver(spec, rows + [row], labels, series) ==
            GridOver(spec, rows, labels, series)
            + if Charted(spec, row) && LabelOf(spec, row) in labels && SeriesOf(spec, row) in series then ValueOf(spec, row) else 0.0
  {
    if labels != [] {
      var init, l := labels[..|labels| - 1], labels[|labels| - 1];
      GridOverLast(spec, rows, row, init, series);
      RowOverLast(spec, rows, row, l, series);
      assert labels == init + [l];
      assert l !in init;
    }
  }

  lemma {:induction false} EmptyRow(spec: ChartSpec, title: string, series: seq<string>)
    ensures RowOver(spec, [], title, series) == 0.0
  {
    if series != [] {
      EmptyRow(spec, title, series[..|series| - 1]);
    }
  }

  lemma {:induction false} EmptyGrid(spec: ChartSpec, labels: seq<string>, series: seq<string>)
    ensures GridOver(spec, [], labels, series) == 0.0
  {
    if labels != [] {
      EmptyGrid(spec, labels[..|labels| - 1], series);
      EmptyRow(spec, labels[|labels| - 1], series);
    }
  }

  lemma {:induction false} GridIsTotal(spec: ChartSpec, rows: seq<Row>, labels: seq<string>, series: seq<string>)
    requires Unique(series) && Unique(labels)
    requires forall l, n :: (l, n) in Cells(spec, rows) ==> l in labels && n in series
    ensures GridOver(spec, rows, labels, series) == Total(spec, rows)
  {
    if rows == [] {
      EmptyGrid(spec, labels, series);
    } else {
      var init, row := rows[..|rows| - 1], rows[|rows| - 1];
      assert rows == init + [row];
      CellsLast(spec, init, row);
      GridIsTotal(spec, init, labels, series);
      GridOverLast(spec, init, row, labels, series);
    }
  }

  lemma {:induction false} PointIsRow(spec: ChartSpec, rows: seq<Row>, p: Point, series: seq<string>)
    requires Shows(spec, rows, p)
    ensures PointTotal(p, series) == RowOver(spec, rows, p.title, series)
  {
    if series != [] {
      PointIsRow(spec, rows, p, series[..|series| - 1]);
      var n := series[|series| - 1];
      if n !in p.values {
        SumOutside(spec, rows, p.title, n);
      }
    }
  }

  lemma {:induction false} PointsAreGrid(spec: ChartSpec, rows: seq<Row>, points: seq<Point>, series: seq<string>)
    requires forall p :: p in points ==> Shows(spec, rows, p)
    ensures ChartTotal(points, series) == GridOver(spec, rows, Labels(points), series)
  {
    if points != [] {
      var init, p := points[..|points| - 1], points[|points| - 1];
      PointsAreGrid(spec, rows, init, series);
      PointIsRow(spec, rows, p, series);
      assert Labels(points)[..|points| - 1] == Labels(init);
    }
  }

  /** The chart conserves its rows: all its values together are the total over the rows that have
      a label. */
  lemma ChartConserves(spec: ChartSpec, rows: seq<Row>, chart: Chart)
    requires Charts(spec, rows, chart)
    ensures ChartTotal(chart.points, chart.series) == Total(spec, rows)
  {
    PointsAreGrid(spec, rows, chart.points, chart.series);
    GridIsTotal(spec, rows, Labels(chart.points), chart.series);
  }
}
