/** The data shaping of src/components/HealthCharts.tsx: the "no data" guard, the general
    chart's split of `presion` ("120/80") into systolic and diastolic values, and the food and
    sleep charts, which take their data as it is. */
module HealthCharts {
  import opened Wrappers
  import opened Json
  import opened HealthData

  /** The index of the first `c` in `s`. */
  function IndexOf(s: string, c: char): (i: nat)
    requires c in s
    ensures i < |s| && s[i] == c && forall j :: 0 <= j < i ==> s[j] != c
  {
    if s[0] == c then 0 else 1 + IndexOf(s[1..], c)
  }

  /** `s.split(sep)` for a one-character separator: the pieces between separators. */
  function Split(s: string, sep: char): (r: seq<string>)
    ensures |r| >= 1
    ensures forall k :: 0 <= k < |r| ==> sep !in r[k]
    decreases |s|
  {
    if sep !in s then [s]
    else
      var i := IndexOf(s, sep);
      [s[..i]] + Split(s[i + 1..], sep)
  }

  /** `parts.join(sep)`. */
  function Join(parts: seq<string>, sep: char): string
  {
    if |parts| <= 1 then (if parts == [] then "" else parts[0])
    else parts[0] + [sep] + Join(parts[1..], sep)
  }

  /** Splitting loses nothing: joining the pieces back gives the original text. */
  lemma {:induction false} JoinSplit(s: string, sep: char)
    ensures Join(Split(s, sep), sep) == s
    decreases |s|
  {
    if sep in s {
      var i := IndexOf(s, sep);
      JoinSplit(s[i + 1..], sep);
      assert s == s[..i] + [sep] + s[i + 1..];
    }
  }

  /** The first two pieces of a text with a separator: the text before the first separator,
      and the text between the first and the second separator (or the end). */
  lemma SplitFirstTwo(s: string, sep: char)
    requires sep in s
    ensures var i := IndexOf(s, sep); var rest := s[i + 1..];
      && |Split(s, sep)| >= 2
      && Split(s, sep)[0] == s[..i]
      && Split(s, sep)[1] == if sep in rest then rest[..IndexOf(rest, sep)] else rest
  {
  }

  /** The systolic and diastolic values of the general chart. */
  datatype Pressure = Pressure(sistolica: Number, diastolica: Number)

  /** `presion` of a point, or `None` when the point has no such field. */
  function PresionOf(p: Point): Option<Value>
  {
    if p.GeneralPoint? then Some(p.presion) else None
  }

  /** The branch of the general chart AS WRITTEN: `d.presion?.includes("/")` is skipped for a
      missing or null field, splits text, and throws a TypeError (`None` here) for a number,
      boolean or object, which have no `includes` method. */
  function PressureAsWritten(h: Host, presion: Option<Value>): (r: Option<Pressure>)
    ensures r.None? <==> presion.Some? && !presion.value.JString? && !presion.value.JNull?
  {
    match presion
    case None => Some(Pressure(Finite(0.0), Finite(0.0)))
    case Some(JNull) => Some(Pressure(Finite(0.0), Finite(0.0)))
    case Some(JString(s)) =>
      if '/' in s then
        var parts := Split(s, '/');
        Some(Pressure(h.parseNumber(parts[0]), h.parseNumber(parts[1])))
      else Some(Pressure(Finite(0.0), Finite(0.0)))
    case Some(_) => None
  }

  /** A point whose `presion` is a JSON number makes the general chart throw. */
  lemma PressureAsWrittenThrowsOnNumber(h: Host)
    ensures PressureAsWritten(h, Some(JNumber(120.0))) == None
  {
  }

  /** The general chart's branch as intended: a value that is not text has no separator and
      gives 0/0, as a missing one does; text is split as written. */
  function SplitPressure(h: Host, presion: Option<Value>): (r: Pressure)
    ensures PressureAsWritten(h, presion).Some? ==> r == PressureAsWritten(h, presion).value
  {
    match presion
    case Some(JString(s)) =>
      if '/' in s then
        var parts := Split(s, '/');
        Pressure(h.parseNumber(parts[0]), h.parseNumber(parts[1]))
      else Pressure(Finite(0.0), Finite(0.0))
    case _ => Pressure(Finite(0.0), Finite(0.0))
  }

  /** Both values are 0 unless `presion` is text holding a `/`; then the systolic value is the
      number before the first `/` and the diastolic one the number between the first and the
      second `/` (or the end); further pieces are ignored. */
  lemma SplitPressureSpec(h: Host, presion: Option<Value>)
    ensures !(presion.Some? && presion.value.JString? && '/' in presion.value.s) ==>
      SplitPressure(h, presion) == Pressure(Finite(0.0), Finite(0.0))
    ensures presion.Some? && presion.value.JString? && '/' in presion.value.s ==>
      var s := presion.value.s;
      var i := IndexOf(s, '/');
      var rest := s[i + 1..];
      SplitPressure(h, presion) == Pressure(
        h.parseNumber(s[..i]),
        h.parseNumber(if '/' in rest then rest[..IndexOf(rest, '/')] else rest))
  {
    if presion.Some? && presion.value.JString? && '/' in presion.value.s {
      SplitFirstTwo(presion.value.s, '/');
    }
  }

  /** "120/80" gives 120 and 80; "abnormal" gives 0 and 0. */
  lemma SplitPressureExamples(h: Host)
    requires h.parseNumber("120") == Finite(120.0) && h.parseNumber("80") == Finite(80.0)
    ensures SplitPressure(h, Some(JString("120/80"))) == Pressure(Finite(120.0), Finite(80.0))
    ensures SplitPressure(h, Some(JString("abnormal"))) == Pressure(Finite(0.0), Finite(0.0))
  {
    var s := "120/80";
    assert s[3] == '/' && s[0] != '/' && s[1] != '/' && s[2] != '/';
    assert IndexOf(s, '/') == 3;
    assert s[..3] == "120";
    assert s[4..] == "80" && '/' !in s[4..];
    SplitPressureSpec(h, Some(JString(s)));
    assert '/' !in "abnormal";
  }

  /** A record of the general chart: the point with `sistolica` and `diastolica` added. */
  datatype GeneralRow = GeneralRow(point: Point, sistolica: Number, diastolica: Number)

  /** `data.map(...)` of the general chart. */
  function FormatGeneral(h: Host, data: seq<Point>): (rows: seq<GeneralRow>)
    ensures |rows| == |data|
    ensures forall i :: 0 <= i < |data| ==>
      rows[i].point == data[i] &&
      Pressure(rows[i].sistolica, rows[i].diastolica) == SplitPressure(h, PresionOf(data[i]))
  {
    seq(|data|, i requires 0 <= i < |data| =>
      var p := SplitPressure(h, PresionOf(data[i]));
      GeneralRow(data[i], p.sistolica, p.diastolica))
  }

  /** The `type` prop. */
  datatype ChartKind = GeneralChart | FoodChart | SleepChart

  /** What the component renders: the "no data" notice, or a chart of the given records. */
  datatype ChartView =
    | NoData
    | GeneralView(rows: seq<GeneralRow>)
    | FoodView(points: seq<Point>)
    | SleepView(points: seq<Point>)

  /** `HealthCharts({data, type})`: a missing or empty `data` gives the notice whatever the
      chart; otherwise the general chart adds the split pressure to each record and the food
      and sleep charts take the records as they are. */
  function Chart(h: Host, data: Option<seq<Point>>, kind: ChartKind): (v: ChartView)
    ensures v.NoData? <==> data.None? || data.value == []
    ensures !v.NoData? && kind == FoodChart ==> v == FoodView(data.value)
    ensures !v.NoData? && kind == SleepChart ==> v == SleepView(data.value)
    ensures !v.NoData? && kind == GeneralChart ==> v == GeneralView(FormatGeneral(h, data.value))
  {
    if data.None? || data.value == [] then NoData
    else match kind
      case GeneralChart => GeneralView(FormatGeneral(h, data.value))
      case FoodChart => FoodView(data.value)
      case SleepChart => SleepView(data.value)
  }
}
