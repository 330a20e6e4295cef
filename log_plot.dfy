// The preprocessing behind the price plots of the GoatBots scripts (plotear in
// grafica.py, repeated in functionsVenta.py): keep the odd lines of the log, collect
// the timestamps of rows whose price is " null", forward-fill the gaps, build the axes
// and place the out-of-stock markers. Reading the CSV, strptime and the drawing are
// the environment: the parsed rows and the timestamp function are parameters.

module LogPlot {
  import opened Text
  import opened Lanes

  // ---------------------------------------------------------------- odd lines

  /** The lines at odd indices 1, 3, 5, ..., in order. */
  function OddIndexed(data: seq<string>): (r: seq<string>)
    ensures |r| == |data| / 2
    ensures forall k | 0 <= k < |r| :: r[k] == data[2 * k + 1]
  {
    seq(|data| / 2, k requires 0 <= k < |data| / 2 => data[2 * k + 1])
  }

  /** The copy loop: a line is written exactly when its index is odd. */
  method OddLines(data: seq<string>) returns (written: seq<string>)
    ensures written == OddIndexed(data)
  {
    written := [];
    for i := 0 to |data|
      invariant |written| == i / 2
      invariant forall k | 0 <= k < |written| :: written[k] == data[2 * k + 1]
    {
      if i % 2 != 0 {
        written := written + [data[i]];
      }
    }
  }

  // ---------------------------------------------------------------- the rows

  /** One row of the log: date, time, and the Normal and Promo prices as text. */
  datatype Row = Row(fecha: string, hora: string, normal: string, promo: string)

  /** "Fecha Hora", the text strptime reads. */
  function When(r: Row): string
  {
    r.fecha + " " + r.hora
  }

  function Whens(rows: seq<Row>): (r: seq<string>)
    ensures |r| == |rows| && forall i | 0 <= i < |rows| :: r[i] == When(rows[i])
  {
    seq(|rows|, i requires 0 <= i < |rows| => When(rows[i]))
  }

  function Stamps(rows: seq<Row>, time: string -> int): (r: seq<int>)
    ensures |r| == |rows| && forall i | 0 <= i < |rows| :: r[i] == time(When(rows[i]))
  {
    seq(|rows|, i requires 0 <= i < |rows| => time(When(rows[i])))
  }

  function Normals(rows: seq<Row>): (r: seq<string>)
    ensures |r| == |rows| && forall i | 0 <= i < |rows| :: r[i] == rows[i].normal
  {
    seq(|rows|, i requires 0 <= i < |rows| => rows[i].normal)
  }

  function Promos(rows: seq<Row>): (r: seq<string>)
    ensures |r| == |rows| && forall i | 0 <= i < |rows| :: r[i] == rows[i].promo
  {
    seq(|rows|, i requires 0 <= i < |rows| => rows[i].promo)
  }

  const Null := " null"

  /** Which cells of a column are the " null" marker. */
  function NullMask(cells: seq<string>): (m: seq<bool>)
    ensures |m| == |cells| && forall i | 0 <= i < |cells| :: m[i] == (cells[i] == Null)
  {
    seq(|cells|, i requires 0 <= i < |cells| => cells[i] == Null)
  }

  // ------------------------------------------------------ null-row collection

  /** The timestamps of null rows: ErrorNormalx1/ErrorNormalx for the Normal column
      and ErrorPromox1/ErrorPromox for the Promo column, in row order. */
  method CollectNulls(rows: seq<Row>, time: string -> int)
      returns (normalX1: seq<string>, normalX: seq<int>, promoX1: seq<string>, promoX: seq<int>)
    ensures normalX1 == Compressed(Whens(rows), NullMask(Normals(rows)))
    ensures normalX == Compressed(Stamps(rows, time), NullMask(Normals(rows)))
    ensures promoX1 == Compressed(Whens(rows), NullMask(Promos(rows)))
    ensures promoX == Compressed(Stamps(rows, time), NullMask(Promos(rows)))
  {
    normalX1, normalX, promoX1, promoX := [], [], [], [];
    var aux1, aux2 := 0, 0;
    ghost var ws, ts, nm, pm := Whens(rows), Stamps(rows, time), NullMask(Normals(rows)), NullMask(Promos(rows));
    for i := 0 to |rows|
      invariant aux1 == |normalX1| == |normalX| && aux2 == |promoX1| == |promoX|
      invariant normalX1 == Compressed(ws[..i], nm[..i]) && normalX == Compressed(ts[..i], nm[..i])
      invariant promoX1 == Compressed(ws[..i], pm[..i]) && promoX == Compressed(ts[..i], pm[..i])
    {
      if rows[i].normal == Null {
        normalX1 := normalX1 + [rows[i].fecha + " " + rows[i].hora];
        normalX := normalX + [time(normalX1[aux1])];
        aux1 := aux1 + 1;
      }
      if rows[i].promo == Null {
        promoX1 := promoX1 + [rows[i].fecha + " " + rows[i].hora];
        promoX := promoX + [time(promoX1[aux2])];
        aux2 := aux2 + 1;
      }
      CompressedStep(ws, nm, i);
      CompressedStep(ts, nm, i);
      CompressedStep(ws, pm, i);
      CompressedStep(ts, pm, i);
    }
    assert ws[..|rows|] == ws && ts[..|rows|] == ts && nm[..|rows|] == nm && pm[..|rows|] == pm;
  }

  // -------------------------------------------------------------- forward fill

  /** X.replace(" null", nan) on one column: the marker becomes a missing value. */
  function Missing(cells: seq<string>): (r: seq<Option<string>>)
    ensures |r| == |cells|
    ensures forall i | 0 <= i < |cells| :: r[i] == if cells[i] == Null then None else Some(cells[i])
  {
    seq(|cells|, i requires 0 <= i < |cells| => if cells[i] == Null then None else Some(cells[i]))
  }

  /** fillna(method="ffill") from a carried value: each gap takes the value last seen. */
  function FFillFrom<T>(c: seq<Option<T>>, carry: Option<T>): (r: seq<Option<T>>)
    ensures |r| == |c|
  {
    if c == [] then []
    else
      var v := if c[0].Some? then c[0] else carry;
      [v] + FFillFrom(c[1..], v)
  }

  function FFill<T>(c: seq<Option<T>>): (r: seq<Option<T>>)
    ensures |r| == |c|
  {
    FFillFrom(c, None)
  }

  /** Reference: the last present value of a sequence, None when there is none. */
  function LastSome<T>(c: seq<Option<T>>): Option<T>
  {
    if c == [] then None
    else if c[|c| - 1].Some? then c[|c| - 1]
    else LastSome(c[..|c| - 1])
  }

  /** LastSome is the present value with nothing present after it, or None when all are missing. */
  lemma {:induction false} LastSomeSpec<T>(c: seq<Option<T>>)
    ensures LastSome(c).None? <==> forall j | 0 <= j < |c| :: c[j].None?
    ensures LastSome(c).Some? ==> exists j | 0 <= j < |c| ::
      c[j] == LastSome(c) && forall k | j < k < |c| :: c[k].None?
  {
    if c != [] && c[|c| - 1].None? {
      var p := c[..|c| - 1];
      LastSomeSpec(p);
      assert forall j | 0 <= j < |p| :: p[j] == c[j];
      if LastSome(p).Some? {
        var j :| 0 <= j < |p| && p[j] == LastSome(p) && forall k | j < k < |p| :: p[k].None?;
        assert c[j] == LastSome(c) && forall k | j < k < |c| :: c[k].None?;
      }
    }
  }

  lemma {:induction false} LastSomeShift<T>(a: Option<T>, b: Option<T>, t: seq<Option<T>>)
    ensures LastSome([a, b] + t) == LastSome([if b.Some? then b else a] + t)
    decreases |t|
  {
    if t == [] {
      assert [a, b][..1] == [a];
      assert [if b.Some? then b else a][..0] == [];
    } else if t[|t| - 1].None? {
      var t' := t[..|t| - 1];
      assert ([a, b] + t)[..|[a, b] + t| - 1] == [a, b] + t';
      assert ([if b.Some? then b else a] + t)[..|t|] == [if b.Some? then b else a] + t';
      LastSomeShift(a, b, t');
    }
  }

  lemma {:induction false} LastSomeNone<T>(p: seq<Option<T>>)
    ensures LastSome([None] + p) == LastSome(p)
  {
    if p != [] && p[|p| - 1].None? {
      assert ([None] + p)[..|p|] == [None] + p[..|p| - 1];
      LastSomeNone(p[..|p| - 1]);
    }
  }

  lemma {:induction false} FFillFromAt<T>(c: seq<Option<T>>, carry: Option<T>, i: nat)
    requires i < |c|
    ensures FFillFrom(c, carry)[i] == LastSome([carry] + c[..i + 1])
  {
    var v := if c[0].Some? then c[0] else carry;
    if i == 0 {
      assert [carry] + c[..1] == [carry, c[0]];
      assert [carry, c[0]][..1] == [carry];
      assert [carry][..0] == [];
      assert LastSome([carry]) == carry;
      assert FFillFrom(c, carry)[0] == v;
    } else {
      FFillFromAt(c[1..], v, i - 1);
      assert c[..i + 1] == [c[0]] + c[1..][..i];
      assert [carry] + c[..i + 1] == [carry, c[0]] + c[1..][..i];
      LastSomeShift(carry, c[0], c[1..][..i]);
    }
  }

  /** After ffill each cell holds the nearest value at or before it; None before the first value. */
  lemma FFillNearest<T>(c: seq<Option<T>>, i: nat)
    requires i < |c|
    ensures FFill(c)[i] == LastSome(c[..i + 1])
  {
    FFillFromAt(c, None, i);
    LastSomeNone(c[..i + 1]);
  }

  /** A present cell keeps its value; a gap takes the last earlier value; leading gaps stay missing. */
  lemma FFillCells<T>(c: seq<Option<T>>, i: nat)
    requires i < |c|
    ensures c[i].Some? ==> FFill(c)[i] == c[i]
    ensures c[i].None? && i > 0 ==> FFill(c)[i] == FFill(c)[i - 1]
    ensures (forall j | 0 <= j <= i :: c[j].None?) <==> FFill(c)[i].None?
  {
    FFillNearest(c, i);
    LastSomeSpec(c[..i + 1]);
    if c[i].None? && i > 0 {
      FFillNearest(c, i - 1);
      assert c[..i + 1][..i] == c[..i];
    }
  }

  /** Forward-filling twice changes nothing. */
  lemma FFillIdempotent<T>(c: seq<Option<T>>)
    ensures FFill(FFill(c)) == FFill(c)
  {
    var f := FFill(c);
    forall i | 0 <= i < |c| ensures FFill(f)[i] == f[i] {
      FFillCells(f, i);
      FFillCells(c, i);
      if f[i].None? {
        forall j | 0 <= j <= i ensures f[j].None? {
          FFillCells(c, j);
        }
      }
    }
  }

  /** A row after replace and ffill. */
  datatype FilledRow = FilledRow(fecha: string, hora: string, normal: Option<string>, promo: Option<string>)

  /** X.replace(" null", nan).fillna(method="ffill") on the price columns. */
  function FillRows(rows: seq<Row>): (r: seq<FilledRow>)
    ensures |r| == |rows|
    ensures forall i | 0 <= i < |rows| ::
      r[i].fecha == rows[i].fecha && r[i].hora == rows[i].hora
      && r[i].normal == FFill(Missing(Normals(rows)))[i] && r[i].promo == FFill(Missing(Promos(rows)))[i]
  {
    var n, p := FFill(Missing(Normals(rows))), FFill(Missing(Promos(rows)));
    seq(|rows|, i requires 0 <= i < |rows| => FilledRow(rows[i].fecha, rows[i].hora, n[i], p[i]))
  }

  // ------------------------------------------------------------------ the axes

  /** The axis loop: one timestamp, Normal and Promo entry per row, in row order. */
  method Axes(filled: seq<FilledRow>, time: string -> int)
      returns (horita: seq<string>, ejex: seq<int>, ejeyNormal: seq<Option<string>>, ejeyPromo: seq<Option<string>>)
    ensures |horita| == |ejex| == |ejeyNormal| == |ejeyPromo| == |filled|
    ensures forall i | 0 <= i < |filled| ::
      horita[i] == filled[i].fecha + " " + filled[i].hora
      && ejex[i] == time(horita[i]) && ejeyNormal[i] == filled[i].normal && ejeyPromo[i] == filled[i].promo
  {
    horita, ejex, ejeyNormal, ejeyPromo := [], [], [], [];
    for i := 0 to |filled|
      invariant |horita| == |ejex| == |ejeyNormal| == |ejeyPromo| == i
      invariant forall k | 0 <= k < i ::
        horita[k] == filled[k].fecha + " " + filled[k].hora
        && ejex[k] == time(horita[k]) && ejeyNormal[k] == filled[k].normal && ejeyPromo[k] == filled[k].promo
    {
      horita := horita + [filled[i].fecha + " " + filled[i].hora];
      ejex := ejex + [time(horita[i])];
      ejeyNormal := ejeyNormal + [filled[i].normal];
      ejeyPromo := ejeyPromo + [filled[i].promo];
    }
  }

  // ---------------------------------------------------- out-of-stock markers

  /** How many entries of errs equal x. */
  function Occurrences(errs: seq<int>, x: int): (n: nat)
    ensures n <= |errs|
  {
    if errs == [] then 0
    else Occurrences(errs[..|errs| - 1], x) + (if errs[|errs| - 1] == x then 1 else 0)
  }

  /** The marker heights: for each row j in order, ys[j] once per error timestamp equal to xs[j]. */
  function Matched<T>(xs: seq<int>, errs: seq<int>, ys: seq<T>): seq<T>
    requires |xs| == |ys|
  {
    if xs == [] then []
    else Matched(xs[..|xs| - 1], errs, ys[..|ys| - 1]) + Repeat(ys[|ys| - 1], Occurrences(errs, xs[|xs| - 1]))
  }

  /** The nested matching loops of plotear. */
  method MatchErrors<T>(ejex: seq<int>, errs: seq<int>, ys: seq<T>) returns (out: seq<T>)
    requires |ejex| == |ys|
    ensures out == Matched(ejex, errs, ys)
  {
    out := [];
    for j := 0 to |ejex|
      invariant out == Matched(ejex[..j], errs, ys[..j])
    {
      for i := 0 to |errs|
        invariant out == Matched(ejex[..j], errs, ys[..j]) + Repeat(ys[j], Occurrences(errs[..i], ejex[j]))
      {
        assert errs[..i + 1][..i] == errs[..i];
        if ejex[j] == errs[i] {
          out := out + [ys[j]];
        }
        assert Repeat(ys[j], Occurrences(errs[..i + 1], ejex[j]))
          == Repeat(ys[j], Occurrences(errs[..i], ejex[j])) + (if ejex[j] == errs[i] then [ys[j]] else []);
      }
      assert errs[..|errs|] == errs;
      assert ejex[..j + 1][..j] == ejex[..j] && ys[..j + 1][..j] == ys[..j];
    }
    assert ejex[..|ejex|] == ejex && ys[..|ys|] == ys;
  }

  lemma {:induction false} OccurrencesAppend(a: seq<int>, b: seq<int>, x: int)
    ensures Occurrences(a + b, x) == Occurrences(a, x) + Occurrences(b, x)
  {
    if b == [] {
      assert a + b == a;
    } else {
      assert (a + b)[..|a + b| - 1] == a + b[..|b| - 1];
      OccurrencesAppend(a, b[..|b| - 1], x);
    }
  }

  lemma {:induction false} OccurrencesAbsent(errs: seq<int>, x: int)
    requires x !in errs
    ensures Occurrences(errs, x) == 0
  {
    if errs != [] {
      OccurrencesAbsent(errs[..|errs| - 1], x);
    }
  }

  lemma {:induction false} CompressedSubset<T>(xs: seq<T>, m: seq<bool>, x: T)
    requires |xs| == |m| && x !in xs
    ensures x !in Compressed(xs, m)
  {
    if xs != [] {
      CompressedSubset(xs[1..], m[1..], x);
    }
  }

  /** With distinct timestamps, each one occurs among the error timestamps once if
      its row is selected and never otherwise. */
  lemma {:induction false} OccurrencesCompressed(xs: seq<int>, m: seq<bool>, j: nat)
    requires |xs| == |m| && j < |xs|
    requires forall a, b | 0 <= a < b < |xs| :: xs[a] != xs[b]
    ensures Occurrences(Compressed(xs, m), xs[j]) == if m[j] then 1 else 0
  {
    var head := if m[0] then [xs[0]] else [];
    assert Compressed(xs, m) == head + Compressed(xs[1..], m[1..]);
    OccurrencesAppend(head, Compressed(xs[1..], m[1..]), xs[j]);
    if head != [] {
      assert head[..0] == [];
    }
    if j == 0 {
      assert xs[0] !in xs[1..];
      CompressedSubset(xs[1..], m[1..], xs[0]);
      OccurrencesAbsent(Compressed(xs[1..], m[1..]), xs[0]);
    } else {
      OccurrencesCompressed(xs[1..], m[1..], j - 1);
    }
  }

  /** The markers are the selected heights when every timestamp matches its own flags. */
  lemma {:induction false} MatchedSelects<T>(xs: seq<int>, errs: seq<int>, ys: seq<T>, m: seq<bool>)
    requires |xs| == |ys| == |m|
    requires forall j | 0 <= j < |xs| :: Occurrences(errs, xs[j]) == if m[j] then 1 else 0
    ensures Matched(xs, errs, ys) == Compressed(ys, m)
  {
    if xs != [] {
      var n := |xs| - 1;
      MatchedSelects(xs[..n], errs, ys[..n], m[..n]);
      CompressedStep(ys, m, n);
      assert ys[..n + 1] == ys && m[..n + 1] == m;
      assert Repeat(ys[n], 0) == [] && Repeat(ys[n], 1) == [ys[n]];
    }
  }

  // --------------------------------------------------------------- the whole

  /** What plotear draws: the two price lines and the two marker series. */
  datatype Plot = Plot(ejex: seq<int>, ejeyNormal: seq<Option<string>>, ejeyPromo: seq<Option<string>>,
                       errorNormalx: seq<int>, errorNormaly: seq<Option<string>>,
                       errorPromox: seq<int>, errorPromoy: seq<Option<string>>)

  /** plotear: the odd lines of the log are written out, read back as rows (the
      parameter readCsv) and turned into the series drawn. */
  method Plotear(data: seq<string>, readCsv: seq<string> -> seq<Row>, time: string -> int)
      returns (written: seq<string>, plot: Plot)
    ensures written == OddIndexed(data)
    ensures var rows := readCsv(written);
      plot.ejex == Stamps(rows, time)
      && plot.ejeyNormal == FFill(Missing(Normals(rows))) && plot.ejeyPromo == FFill(Missing(Promos(rows)))
      && plot.errorNormalx == Compressed(Stamps(rows, time), NullMask(Normals(rows)))
      && plot.errorPromox == Compressed(Stamps(rows, time), NullMask(Promos(rows)))
      && plot.errorNormaly == Matched(plot.ejex, plot.errorNormalx, plot.ejeyPromo)
      && plot.errorPromoy == Matched(plot.ejex, plot.errorPromox, plot.ejeyPromo)
  {
    written := OddLines(data);
    var rows := readCsv(written);
    var normalX1, normalX, promoX1, promoX := CollectNulls(rows, time);
    var filled := FillRows(rows);
    var horita, ejex, ejeyNormal, ejeyPromo := Axes(filled, time);
    assert ejex == Stamps(rows, time);
    assert ejeyNormal == FFill(Missing(Normals(rows)));
    assert ejeyPromo == FFill(Missing(Promos(rows)));
    var promoY := MatchErrors(ejex, promoX, ejeyPromo);
    var normalY := MatchErrors(ejex, normalX, ejeyPromo);
    plot := Plot(ejex, ejeyNormal, ejeyPromo, normalX, normalY, promoX, promoY);
  }

  /** With distinct timestamps, the markers of a column stand at the filled Promo
      value of exactly the rows where that column was " null", in row order: for the
      Promo markers the last Promo price seen, and for the Normal markers also the
      Promo price, since both read ejeypromo. */
  lemma MarkersAtNullRows(rows: seq<Row>, time: string -> int, column: seq<string>)
    requires column == Normals(rows) || column == Promos(rows)
    requires forall a, b | 0 <= a < b < |rows| :: time(When(rows[a])) != time(When(rows[b]))
    ensures Matched(Stamps(rows, time), Compressed(Stamps(rows, time), NullMask(column)), FFill(Missing(Promos(rows))))
      == Compressed(FFill(Missing(Promos(rows))), NullMask(column))
  {
    var xs := Stamps(rows, time);
    forall j | 0 <= j < |xs| ensures Occurrences(Compressed(xs, NullMask(column)), xs[j]) == if NullMask(column)[j] then 1 else 0 {
      OccurrencesCompressed(xs, NullMask(column), j);
    }
    MatchedSelects(xs, Compressed(xs, NullMask(column)), FFill(Missing(Promos(rows))), NullMask(column));
  }
}
