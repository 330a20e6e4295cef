// The decision logic of the Cardmarket / CardTrader price tracker: the country flag
// table, the ASCII offers table, price-text parsing, the CardTrader Zero minimum and
// the per-job alert, history and summary rules of check_offers. Scraping, HTTP,
// Telegram, CSV files and plotting are the environment: their results are inputs.

module MtgBuyTracker {
  import opened Text
  import opened Numerals
  import opened Lanes

  // ------------------------------------------------------------ country flags

  predicate Upper(c: char) { 'A' <= c <= 'Z' }

  /** The regional indicator symbol for a capital letter. */
  function RegionalIndicator(c: char): char
    requires Upper(c)
  {
    (0x1F1E6 + ((c as int) - ('A' as int))) as char
  }

  /** The flag emoji of a two-letter country code: two regional indicators. */
  function Flag(a: Letter, b: Letter): (r: string)
    ensures |r| == 2 && (r[0] == r[1] <==> a == b)
  {
    [RegionalIndicator(a), RegionalIndicator(b)]
  }

  /** A capital letter of a country code. */
  type Letter = c: char | Upper(c) witness 'A'

  /** An entry of COUNTRY_FLAGS: a country name and the code of its flag. */
  datatype Country = Country(name: string, first: Letter, second: Letter)

  /** COUNTRY_FLAGS, each country with the code of the flag it maps to, in source order. */
  const CountryFlags: seq<Country> := [
      Country("Alemania", 'D', 'E'), Country("Germany", 'D', 'E'), Country("B\U{e9}lgica", 'B', 'E'),
      Country("Belgium", 'B', 'E'), Country("Bulgaria", 'B', 'G'), Country("Chipre", 'C', 'Y'),
      Country("Cyprus", 'C', 'Y'), Country("Croacia", 'H', 'R'), Country("Croatia", 'H', 'R'),
      Country("Dinamarca", 'D', 'K'), Country("Denmark", 'D', 'K'), Country("Eslovaquia", 'S', 'K'),
      Country("Slovakia", 'S', 'K'), Country("Eslovenia", 'S', 'I'), Country("Slovenia", 'S', 'I'),
      Country("Espa\U{f1}a", 'E', 'S'), Country("Spain", 'E', 'S'), Country("Estonia", 'E', 'E'),
      Country("Finlandia", 'F', 'I'), Country("Finland", 'F', 'I'), Country("Francia", 'F', 'R'),
      Country("France", 'F', 'R'), Country("Grecia", 'G', 'R'), Country("Greece", 'G', 'R'),
      Country("Hungr\U{ed}a", 'H', 'U'), Country("Hungary", 'H', 'U'), Country("Irlanda", 'I', 'E'),
      Country("Ireland", 'I', 'E'), Country("Islandia", 'I', 'S'), Country("Iceland", 'I', 'S'),
      Country("Italia", 'I', 'T'), Country("Italy", 'I', 'T'), Country("Jap\U{f3}n", 'J', 'P'),
      Country("Japan", 'J', 'P'), Country("Letonia", 'L', 'V'), Country("Latvia", 'L', 'V'),
      Country("Liechtenstein", 'L', 'I'), Country("Lituania", 'L', 'T'), Country("Lithuania", 'L', 'T'),
      Country("Luxemburgo", 'L', 'U'), Country("Luxembourg", 'L', 'U'), Country("Malta", 'M', 'T'),
      Country("Noruega", 'N', 'O'), Country("Norway", 'N', 'O'), Country("Pa\U{ed}ses Bajos", 'N', 'L'),
      Country("Netherlands", 'N', 'L'), Country("Polonia", 'P', 'L'), Country("Poland", 'P', 'L'),
      Country("Portugal", 'P', 'T'), Country("Reino Unido", 'G', 'B'), Country("United Kingdom", 'G', 'B'),
      Country("Rep\U{fa}blica Checa", 'C', 'Z'), Country("Czech Republic", 'C', 'Z'), Country("Rumania", 'R', 'O'),
      Country("Romania", 'R', 'O'), Country("Singapur", 'S', 'G'), Country("Singapore", 'S', 'G'),
      Country("Suecia", 'S', 'E'), Country("Sweden", 'S', 'E'), Country("Suiza", 'C', 'H'),
      Country("Switzerland", 'C', 'H'), Country("Austria", 'A', 'T')]

  predicate Listed(table: seq<Country>, country: string)
  {
    exists i | 0 <= i < |table| :: table[i].name == country
  }

  /** dict.get(country, ""): the flag of the first entry for the country, or "". */
  function FlagIn(table: seq<Country>, country: string): (r: string)
    ensures |r| == (if Listed(table, country) then 2 else 0)
    ensures Listed(table, country) ==> exists i | 0 <= i < |table| ::
      table[i].name == country && r == Flag(table[i].first, table[i].second)
  {
    if table == [] then ""
    else if table[0].name == country then Flag(table[0].first, table[0].second)
    else
      var r := FlagIn(table[1..], country);
      assert Listed(table, country) <==> Listed(table[1..], country) by {
        if Listed(table, country) {
          var i :| 0 <= i < |table| && table[i].name == country;
          assert table[1..][i - 1].name == country;
        }
        if Listed(table[1..], country) {
          var i :| 0 <= i < |table[1..]| && table[1..][i].name == country;
          assert table[i + 1].name == country;
        }
      }
      assert Listed(table[1..], country) ==> exists i | 0 <= i < |table| ::
        table[i].name == country && r == Flag(table[i].first, table[i].second) by {
        if Listed(table[1..], country) {
          var i :| 0 <= i < |table[1..]| && table[1..][i].name == country && r == Flag(table[1..][i].first, table[1..][i].second);
          assert table[i + 1] == table[1..][i];
        }
      }
      r
  }

  /** The Country cell: the country's flag, a space, then the country. */
  function CountryCell(country: string): (r: string)
    ensures |r| == |country| + (if Listed(CountryFlags, country) then 3 else 1)
    ensures r[|r| - |country|..] == country
  {
    FlagIn(CountryFlags, country) + " " + country
  }

  // ------------------------------------------------------------------- offers

  /** One scraped offer. price is parse_price(price_txt). */
  datatype Offer = Offer(article: string, seller: string, quantity: string, priceTxt: string,
                         price: Option<real>, country: string, sales: string)

  // -------------------------------------------------------------- ascii_table

  const Columns: seq<string> := ["Seller", "Qty", "Price", "Country", "Sales"]

  /** The five cells of an offer's row. */
  function Cells(o: Offer): (r: seq<string>)
    ensures |r| == 5 && r[3] == CountryCell(o.country)
  {
    [o.seller, o.quantity, o.priceTxt, CountryCell(o.country), o.sales]
  }

  predicate Rows(rows: seq<seq<string>>)
  {
    forall k | 0 <= k < |rows| :: |rows[k]| == 5
  }

  function RowsOf(offers: seq<Offer>): (rows: seq<seq<string>>)
    ensures |rows| == |offers| && Rows(rows)
    ensures forall k | 0 <= k < |offers| :: rows[k] == Cells(offers[k])
  {
    seq(|offers|, k requires 0 <= k < |offers| => Cells(offers[k]))
  }

  function Max(a: nat, b: nat): nat { if a < b then b else a }

  /** Width of column i: the longest of its header and its cells. */
  function ColumnWidth(rows: seq<seq<string>>, i: nat): (w: nat)
    requires i < 5 && Rows(rows)
    ensures w >= |Columns[i]| && forall k | 0 <= k < |rows| :: w >= |rows[k][i]|
    ensures w == |Columns[i]| || exists k | 0 <= k < |rows| :: w == |rows[k][i]|
  {
    if rows == [] then |Columns[i]|
    else
      var w := Max(ColumnWidth(rows[..|rows| - 1], i), |rows[|rows| - 1][i]|);
      assert forall k | 0 <= k < |rows| - 1 :: rows[..|rows| - 1][k] == rows[k];
      w
  }

  function Widths(rows: seq<seq<string>>): (ws: seq<nat>)
    requires Rows(rows)
    ensures |ws| == 5 && forall i | 0 <= i < 5 :: ws[i] == ColumnWidth(rows, i)
  {
    seq(5, i requires 0 <= i < 5 => ColumnWidth(rows, i))
  }

  function Dashes(n: nat): (r: string)
    ensures |r| == n
  {
    seq(n, _ => '-')
  }

  /** "+" + "+".join("-" * (w + 2) for w in widths) + "+". */
  function Separator(widths: seq<nat>): string
  {
    "+" + Join("+", seq(|widths|, i requires 0 <= i < |widths| => Dashes(widths[i] + 2))) + "+"
  }

  /** "| " + " | ".join(cell i left-justified to widths[i]) + " |". */
  function Line(cells: seq<string>, widths: seq<nat>): string
    requires |cells| == |widths|
  {
    "| " + Join(" | ", seq(|cells|, i requires 0 <= i < |cells| => LJust(cells[i], widths[i]))) + " |"
  }

  /** Separator, header, separator, one line per row, separator. */
  function Lines(rows: seq<seq<string>>, ws: seq<nat>): (lines: seq<string>)
    requires Rows(rows) && |ws| == 5
    ensures |lines| == |rows| + 4
  {
    var sep := Separator(ws);
    [sep, Line(Columns, ws), sep] + seq(|rows|, k requires 0 <= k < |rows| => Line(rows[k], ws)) + [sep]
  }

  /** The lines of the offers table, each column as wide as its widest cell. */
  function TableLines(offers: seq<Offer>): (lines: seq<string>)
    ensures |lines| == |offers| + 4
  {
    Lines(RowsOf(offers), Widths(RowsOf(offers)))
  }

  /** ascii_table: the lines of the table joined with newlines. */
  method AsciiTable(offers: seq<Offer>) returns (table: string)
    ensures table == Join("\n", TableLines(offers))
  {
    var rows: seq<seq<string>> := [];
    for k := 0 to |offers|
      invariant rows == RowsOf(offers[..k])
    {
      var o := offers[k];
      var country := CountryCell(o.country);
      rows := rows + [[o.seller, o.quantity, o.priceTxt, country, o.sales]];
      assert offers[..k + 1][..k] == offers[..k];
    }
    assert offers[..|offers|] == offers;
    var widths := MeasureColumns(rows);
    var lines := RenderLines(rows, widths);
    table := Join("\n", lines);
  }

  /** The lines loop of ascii_table. */
  method RenderLines(rows: seq<seq<string>>, widths: seq<nat>) returns (lines: seq<string>)
    requires Rows(rows) && |widths| == 5
    ensures lines == Lines(rows, widths)
  {
    var sep := Separator(widths);
    var header := Line(Columns, widths);
    lines := [sep, header, sep];
    for k := 0 to |rows|
      invariant |lines| == k + 3 && lines[0] == sep && lines[1] == header && lines[2] == sep
      invariant forall j | 0 <= j < k :: lines[j + 3] == Line(rows[j], widths)
    {
      var line := Line(rows[k], widths);
      lines := lines + [line];
    }
    lines := lines + [sep];
  }

  /** The widths loop of ascii_table: each column's width is its widest cell or header. */
  method MeasureColumns(rows: seq<seq<string>>) returns (widths: seq<nat>)
    requires Rows(rows)
    ensures widths == Widths(rows)
  {
    widths := seq(|Columns|, i requires 0 <= i < |Columns| => |Columns[i]|);
    for k := 0 to |rows|
      invariant |widths| == 5
      invariant forall i | 0 <= i < 5 :: widths[i] == ColumnWidth(rows[..k], i)
    {
      var r := rows[k];
      assert rows[..k + 1][..k] == rows[..k] && rows[..k + 1][k] == r;
      for i := 0 to |r|
        invariant |widths| == 5
        invariant forall j | 0 <= j < i :: widths[j] == ColumnWidth(rows[..k + 1], j)
        invariant forall j | i <= j < 5 :: widths[j] == ColumnWidth(rows[..k], j)
      {
        widths := widths[i := Max(widths[i], |r[i]|)];
      }
    }
    assert rows[..|rows|] == rows;
  }

  function Sum(ws: seq<nat>): nat
  {
    if ws == [] then 0 else ws[0] + Sum(ws[1..])
  }

  lemma {:induction false} TotalLengthSum(parts: seq<string>, ws: seq<nat>, extra: nat)
    requires |parts| == |ws| && forall i | 0 <= i < |ws| :: |parts[i]| == ws[i] + extra
    ensures TotalLength(parts) == Sum(ws) + extra * |ws|
  {
    if ws != [] {
      TotalLengthSum(parts[1..], ws[1..], extra);
    }
  }

  /** A line of padded cells is as long as a separator: the widths plus 16. */
  lemma LineLength(cells: seq<string>, ws: seq<nat>)
    requires |cells| == |ws| == 5 && forall i | 0 <= i < 5 :: |cells[i]| <= ws[i]
    ensures |Line(cells, ws)| == Sum(ws) + 16
    ensures |Separator(ws)| == Sum(ws) + 16
  {
    var padded := seq(5, i requires 0 <= i < 5 => LJust(cells[i], ws[i]));
    TotalLengthSum(padded, ws, 0);
    JoinLength(" | ", padded);
    var dashes := seq(5, i requires 0 <= i < 5 => Dashes(ws[i] + 2));
    TotalLengthSum(dashes, ws, 2);
    JoinLength("+", dashes);
  }

  /** When every cell fits its column, all lines are as long as the separator. */
  lemma LinesShape(rows: seq<seq<string>>, ws: seq<nat>)
    requires Rows(rows) && |ws| == 5
    requires forall i | 0 <= i < 5 :: |Columns[i]| <= ws[i]
    requires forall k, i | 0 <= k < |rows| && 0 <= i < 5 :: |rows[k][i]| <= ws[i]
    ensures forall k | 0 <= k < |Lines(rows, ws)| :: |Lines(rows, ws)[k]| == Sum(ws) + 16
  {
    var lines := Lines(rows, ws);
    LineLength(Columns, ws);
    forall k | 0 <= k < |lines| ensures |lines[k]| == Sum(ws) + 16 {
      if 3 <= k < 3 + |rows| {
        assert lines[k] == Line(rows[k - 3], ws);
        LineLength(rows[k - 3], ws);
      }
    }
  }

  /** ascii_table's lines all have the same length: the column widths plus 16. */
  lemma TableLinesShape(offers: seq<Offer>)
    ensures forall k | 0 <= k < |TableLines(offers)| ::
      |TableLines(offers)[k]| == Sum(Widths(RowsOf(offers))) + 16
  {
    var rows := RowsOf(offers);
    LinesShape(rows, Widths(rows));
  }

  lemma {:induction false} JoinAvoids(sep: string, parts: seq<string>, c: char)
    requires c !in sep && forall k | 0 <= k < |parts| :: c !in parts[k]
    ensures c !in Join(sep, parts)
  {
    if |parts| > 1 {
      JoinAvoids(sep, parts[1..], c);
    }
  }

  lemma LJustAvoids(s: string, w: nat, c: char)
    requires c != ' ' && c !in s
    ensures c !in LJust(s, w)
  {
    var p := LJust(s, w);
    forall j | 0 <= j < |p| ensures p[j] != c {
      if j < |s| {
        assert p[..|s|][j] == s[j];
      }
    }
  }

  lemma LineAvoids(cells: seq<string>, ws: seq<nat>, c: char)
    requires |cells| == |ws| && c != ' ' && c != '|' && forall i | 0 <= i < |cells| :: c !in cells[i]
    ensures c !in Line(cells, ws)
  {
    var padded := seq(|cells|, i requires 0 <= i < |cells| => LJust(cells[i], ws[i]));
    forall i | 0 <= i < |cells| ensures c !in padded[i] {
      LJustAvoids(cells[i], ws[i], c);
    }
    JoinAvoids(" | ", padded, c);
  }

  lemma LinesAvoid(rows: seq<seq<string>>, ws: seq<nat>, c: char)
    requires Rows(rows) && |ws| == 5 && c != ' ' && c != '|' && c != '+' && c != '-'
    requires forall i | 0 <= i < 5 :: c !in Columns[i]
    requires forall k, i | 0 <= k < |rows| && 0 <= i < 5 :: c !in rows[k][i]
    ensures forall k | 0 <= k < |Lines(rows, ws)| :: c !in Lines(rows, ws)[k]
  {
    var lines := Lines(rows, ws);
    var dashes := seq(5, i requires 0 <= i < 5 => Dashes(ws[i] + 2));
    JoinAvoids("+", dashes, c);
    LineAvoids(Columns, ws, c);
    forall k | 0 <= k < |lines| ensures c !in lines[k] {
      if 3 <= k < 3 + |rows| {
        assert lines[k] == Line(rows[k - 3], ws);
        LineAvoids(rows[k - 3], ws, c);
      }
    }
  }

  /** Splitting the table text at newlines gives back its lines, when no cell holds a newline. */
  lemma TableSplits(offers: seq<Offer>)
    requires forall k, i | 0 <= k < |offers| && 0 <= i < 5 :: '\n' !in Cells(offers[k])[i]
    ensures Split(Join("\n", TableLines(offers)), '\n') == TableLines(offers)
  {
    var rows := RowsOf(offers);
    LinesAvoid(rows, Widths(rows), '\n');
    SplitJoin(TableLines(offers), '\n');
  }

  // -------------------------------------------------------------- parse_price

  predicate PriceChar(c: char) { IsDigit(c) || c == ',' || c == '.' }

  /** re.sub(r"[^\d,\.]", "", s): the digits, commas and dots of s, in order. */
  function KeepPriceChars(s: string): (r: string)
    ensures forall i | 0 <= i < |r| :: PriceChar(r[i])
  {
    if s == [] then ""
    else (if PriceChar(s[0]) then [s[0]] else []) + KeepPriceChars(s[1..])
  }

  lemma {:induction false} KeepPriceCharsAppend(s: string, t: string)
    ensures KeepPriceChars(s + t) == KeepPriceChars(s) + KeepPriceChars(t)
  {
    if s == [] {
      assert s + t == t;
    } else {
      assert (s + t)[1..] == s[1..] + t;
      KeepPriceCharsAppend(s[1..], t);
    }
  }

  lemma {:induction false} KeepPriceCharsAll(s: string)
    requires forall i | 0 <= i < |s| :: PriceChar(s[i])
    ensures KeepPriceChars(s) == s
  {
    if s != [] {
      KeepPriceCharsAll(s[1..]);
    }
  }

  lemma {:induction false} KeepPriceCharsNone(s: string)
    requires forall i | 0 <= i < |s| :: !PriceChar(s[i])
    ensures KeepPriceChars(s) == ""
  {
    if s != [] {
      KeepPriceCharsNone(s[1..]);
    }
  }

  /** Replacing a one-character pattern maps that character. */
  lemma {:induction false} ReplaceChar(t: string, a: char, b: char)
    ensures Replace(t, [a], [b]) == seq(|t|, i requires 0 <= i < |t| => if t[i] == a then b else t[i])
  {
    if t != [] {
      ReplaceChar(t[1..], a, b);
      assert t[..1] == [t[0]];
    }
  }

  /** The text parse_price hands to float(): kept characters, commas turned into dots. */
  function Sanitise(s: string): (r: string)
    ensures forall i | 0 <= i < |r| :: IsDigit(r[i]) || r[i] == '.'
  {
    var kept := KeepPriceChars(s);
    ReplaceChar(kept, ',', '.');
    Replace(kept, ",", ".")
  }

  /** parse_price: None where float() raises on the sanitised text. */
  function ParsePrice(s: string): (r: Option<real>)
    ensures r.Some? <==> Numeral(Sanitise(s))
    ensures r.Some? ==> r.value >= 0.0
  {
    ParseFloat(Sanitise(s))
  }

  /** A price printed with a decimal comma and decorated with letters or symbols
      parses to its value. */
  lemma ParsePriceOfCents(c: nat, before: string, after: string)
    requires forall i | 0 <= i < |before| :: !PriceChar(before[i])
    requires forall i | 0 <= i < |after| :: !PriceChar(after[i])
    ensures ParsePrice(before + CentsText(c, ',') + after) == Some((c as real) / 100.0)
  {
    SanitiseCents(c, before, after);
    CentsRoundTrip(c);
  }

  lemma SanitiseCents(c: nat, before: string, after: string)
    requires forall i | 0 <= i < |before| :: !PriceChar(before[i])
    requires forall i | 0 <= i < |after| :: !PriceChar(after[i])
    ensures Sanitise(before + CentsText(c, ',') + after) == CentsText(c, '.')
  {
    var t := CentsText(c, ',');
    KeepPriceAround(before, t, after);
    ReplaceChar(t, ',', '.');
    var e := NatToString(c / 100);
    assert forall i | 0 <= i < |e| :: t[i] == e[i];
  }

  /** Filtering keeps all of a middle made of price characters and none of its surroundings. */
  lemma KeepPriceAround(before: string, t: string, after: string)
    requires forall i | 0 <= i < |before| :: !PriceChar(before[i])
    requires forall i | 0 <= i < |t| :: PriceChar(t[i])
    requires forall i | 0 <= i < |after| :: !PriceChar(after[i])
    ensures KeepPriceChars(before + t + after) == t
  {
    KeepPriceCharsAppend(before + t, after);
    KeepPriceCharsAppend(before, t);
    KeepPriceCharsNone(before);
    KeepPriceCharsNone(after);
    KeepPriceCharsAll(t);
  }

  /** A thousands separator makes two dots, so the price is lost. */
  lemma ParsePriceThousands()
    ensures ParsePrice("1.234,56 \U{20ac}") == None
  {
    assert Sanitise("1.234,56 \U{20ac}")[1] == '.' && Sanitise("1.234,56 \U{20ac}")[5] == '.' by {
      SanitiseThousands("1.234,56 \U{20ac}");
    }
  }

  /** Around a run of price characters, sanitising yields that run with every comma made a dot. */
  lemma SanitiseAround(before: string, t: string, after: string)
    requires forall i | 0 <= i < |before| :: !PriceChar(before[i])
    requires forall i | 0 <= i < |t| :: PriceChar(t[i])
    requires forall i | 0 <= i < |after| :: !PriceChar(after[i])
    ensures Sanitise(before + t + after) == seq(|t|, i requires 0 <= i < |t| => if t[i] == ',' then '.' else t[i])
  {
    KeepPriceAround(before, t, after);
    ReplaceChar(t, ',', '.');
  }

  lemma SanitiseThousands(s: string)
    requires s == "1.234,56 \U{20ac}"
    ensures Sanitise(s) == "1.234.56"
  {
    var t, after := "1.234,56", " \U{20ac}";
    assert t[0] == '1' && t[1] == '.' && t[2] == '2' && t[3] == '3';
    assert t[4] == '4' && t[5] == ',' && t[6] == '5' && t[7] == '6';
    assert after[0] == ' ' && after[1] == '\U{20ac}';
    SanitiseAround("", t, after);
    assert "" + t + after == s;
    var u := Sanitise(s);
    assert |u| == 8 && u[1] == '.' && u[5] == '.';
    assert u[0] == '1' && u[2] == '2' && u[3] == '3' && u[4] == '4' && u[6] == '5' && u[7] == '6';
  }

  /** The placeholder of a missing price does not parse. */
  lemma ParsePriceDash()
    ensures ParsePrice("\U{2014}") == None
  {
    KeepPriceCharsNone("\U{2014}");
  }

  // --------------------------------------------------- CardTrader Zero price

  /** A marketplace product: whether its seller ships through CardTrader Zero, and its price in cents. */
  datatype Product = Product(canSellViaHub: bool, cents: int)

  function HubProducts(data: seq<Product>): (r: seq<Product>)
    ensures forall k | 0 <= k < |r| :: r[k].canSellViaHub && r[k] in data
    ensures forall k | 0 <= k < |data| :: data[k].canSellViaHub ==> data[k] in r
  {
    if data == [] then []
    else
      var rest := HubProducts(data[1..]);
      assert forall k | 1 <= k < |data| :: data[k] == data[1..][k - 1];
      (if data[0].canSellViaHub then [data[0]] else []) + rest
  }

  function MinCents(ps: seq<Product>): (m: int)
    requires |ps| > 0
    ensures (exists k | 0 <= k < |ps| :: ps[k].cents == m) && forall k | 0 <= k < |ps| :: m <= ps[k].cents
  {
    if |ps| == 1 then ps[0].cents
    else
      var m := MinCents(ps[1..]);
      assert forall k | 1 <= k < |ps| :: ps[k] == ps[1..][k - 1];
      if ps[0].cents <= m then ps[0].cents else m
  }

  /** get_cardtrader_zero_lowest_price on the marketplace reply: among the products
      listed under str(blueprint_id), the cheapest one sold through Zero, in euros. */
  function ZeroLowestPrice(response: map<string, seq<Product>>, blueprintId: nat): (r: Option<real>)
    ensures var data := if NatToString(blueprintId) in response then response[NatToString(blueprintId)] else [];
      (r.None? <==> forall k | 0 <= k < |data| :: !data[k].canSellViaHub)
      && (r.Some? ==>
        (exists k | 0 <= k < |data| :: data[k].canSellViaHub && r.value == (data[k].cents as real) / 100.0)
        && forall k | 0 <= k < |data| :: data[k].canSellViaHub ==> r.value <= (data[k].cents as real) / 100.0)
  {
    var key := NatToString(blueprintId);
    var data := if key in response then response[key] else [];
    var zero := HubProducts(data);
    if zero == [] then None
    else
      var m := MinCents(zero);
      assert exists k | 0 <= k < |data| :: data[k].canSellViaHub && data[k].cents == m by {
        var j :| 0 <= j < |zero| && zero[j].cents == m;
        assert zero[j] in data;
      }
      assert forall k | 0 <= k < |data| :: data[k].canSellViaHub ==> m <= data[k].cents by {
        forall k | 0 <= k < |data| && data[k].canSellViaHub ensures m <= data[k].cents {
          assert data[k] in zero;
        }
      }
      Some((m as real) / 100.0)
  }

  // ------------------------------------------------------------- check_offers

  /** One job of jobs.json; blueprintId 0 and alias "" stand for absent (falsy) fields. */
  datatype Job = Job(url: string, blueprintId: nat, targetPrice: real, notify: bool,
                     alias: string, alertOnly: bool)

  /** What the outside world answers for one job: the scraped offers (None when
      scraping raised) and CardTrader's marketplace reply. */
  datatype JobRun = JobRun(job: Job, scraped: Option<seq<Offer>>, zeroResponse: map<string, seq<Product>>)

  /** An offers table sent to Telegram, or a summary entry with its name. */
  datatype Report = Report(name: string, url: string, offers: seq<Offer>, cmMin: Option<real>,
                           ctMin: Option<real>, target: real)

  /** One row appended to the history CSV. */
  datatype HistoryRow = HistoryRow(article: string, timestamp: string, cm: Option<real>,
                                   ct: Option<real>, target: real)

  function Prices(offers: seq<Offer>): (r: seq<real>)
    ensures forall k | 0 <= k < |r| :: exists j | 0 <= j < |offers| :: offers[j].price == Some(r[k])
    ensures forall j | 0 <= j < |offers| :: offers[j].price.Some? ==> offers[j].price.value in r
  {
    if offers == [] then []
    else
      var rest := Prices(offers[1..]);
      assert forall j | 1 <= j < |offers| :: offers[j] == offers[1..][j - 1];
      (if offers[0].price.Some? then [offers[0].price.value] else []) + rest
  }

  function MinReal(xs: seq<real>): (m: real)
    requires |xs| > 0
    ensures m in xs && forall k | 0 <= k < |xs| :: m <= xs[k]
  {
    if |xs| == 1 then xs[0]
    else
      var m := MinReal(xs[1..]);
      assert forall k | 1 <= k < |xs| :: xs[k] == xs[1..][k - 1];
      if xs[0] <= m then xs[0] else m
  }

  /** cm_min: the lowest parsed price among the offers, None when no price parsed. */
  function CheapestPrice(offers: seq<Offer>): (r: Option<real>)
    ensures r.None? <==> forall j | 0 <= j < |offers| :: offers[j].price.None?
    ensures r.Some? ==> (exists j | 0 <= j < |offers| :: offers[j].price == Some(r.value))
    ensures r.Some? ==> forall j | 0 <= j < |offers| :: offers[j].price.Some? ==> r.value <= offers[j].price.value
  {
    var prices := Prices(offers);
    if prices == [] then None
    else
      var m := MinReal(prices);
      assert forall j | 0 <= j < |offers| :: offers[j].price.Some? ==> m <= offers[j].price.value by {
        forall j | 0 <= j < |offers| && offers[j].price.Some? ensures m <= offers[j].price.value {
          var k :| 0 <= k < |prices| && prices[k] == offers[j].price.value;
        }
      }
      Some(m)
  }

  /** The job's name: its alias, or else the article name of the first offer. */
  function JobName(job: Job, offers: seq<Offer>): string
    requires job.alias != "" || |offers| > 0
  {
    if job.alias != "" then job.alias else offers[0].article
  }

  /** ct_min: the Zero price, asked for only when the job has a blueprint id. */
  function CtMin(run: JobRun): Option<real>
  {
    if run.job.blueprintId != 0 then ZeroLowestPrice(run.zeroResponse, run.job.blueprintId) else None
  }

  /** The offers were scraped, and the job has a name: an alias, or a first offer
      to take the article name from (offers[0] raises IndexError otherwise). */
  predicate Scraped(run: JobRun)
  {
    run.scraped.Some? && (run.job.alias != "" || |run.scraped.value| > 0)
  }

  predicate WellScraped(runs: seq<JobRun>)
  {
    forall k | 0 <= k < |runs| :: runs[k].scraped.Some? ==> Scraped(runs[k])
  }

  /** The report of a job whose offers were scraped (a placeholder otherwise). */
  function ReportOf(run: JobRun): Report
  {
    if Scraped(run) then
      var offers := run.scraped.value;
      Report(JobName(run.job, offers), run.job.url, offers, CheapestPrice(offers), CtMin(run), run.job.targetPrice)
    else Report("", run.job.url, [], None, None, run.job.targetPrice)
  }

  /** The alert rule: notify is set and the cheapest Cardmarket price is at most the target. */
  predicate Alerts(run: JobRun)
  {
    var r := ReportOf(run);
    Scraped(run) && run.job.notify && r.cmMin.Some? && r.cmMin.value <= r.target
  }

  /** The job is recorded in the history and the summary. */
  predicate Recorded(run: JobRun)
  {
    Scraped(run) && !run.job.alertOnly
  }

  function HistoryRowOf(run: JobRun, now: string): HistoryRow
  {
    var r := ReportOf(run);
    HistoryRow(r.name, now, r.cmMin, r.ctMin, r.target)
  }

  function Reports(runs: seq<JobRun>): (r: seq<Report>)
    ensures |r| == |runs|
  {
    seq(|runs|, k requires 0 <= k < |runs| => ReportOf(runs[k]))
  }

  function AlertMask(runs: seq<JobRun>): (m: seq<bool>)
    ensures |m| == |runs|
  {
    seq(|runs|, k requires 0 <= k < |runs| => Alerts(runs[k]))
  }

  function RecordMask(runs: seq<JobRun>): (m: seq<bool>)
    ensures |m| == |runs|
  {
    seq(|runs|, k requires 0 <= k < |runs| => Recorded(runs[k]))
  }

  function HistoryRows(runs: seq<JobRun>, now: string): (r: seq<HistoryRow>)
    ensures |r| == |runs|
  {
    seq(|runs|, k requires 0 <= k < |runs| => HistoryRowOf(runs[k], now))
  }

  // The summary dict: (name, entry) pairs in insertion order; assigning to an
  // existing name replaces its entry in place.

  function Upsert(s: seq<(string, Report)>, key: string, v: Report): (r: seq<(string, Report)>)
  {
    if s == [] then [(key, v)]
    else if s[0].0 == key then [(key, v)] + s[1..]
    else [s[0]] + Upsert(s[1..], key, v)
  }

  function Lookup(s: seq<(string, Report)>, key: string): Option<Report>
  {
    if s == [] then None else if s[0].0 == key then Some(s[0].1) else Lookup(s[1..], key)
  }

  predicate DistinctKeys(s: seq<(string, Report)>)
  {
    forall i, j | 0 <= i < j < |s| :: s[i].0 != s[j].0
  }

  /** The summary after the given jobs. */
  function Summary(runs: seq<JobRun>): seq<(string, Report)>
  {
    if runs == [] then []
    else
      var s := Summary(runs[..|runs| - 1]);
      var run := runs[|runs| - 1];
      if Recorded(run) then Upsert(s, ReportOf(run).name, ReportOf(run)) else s
  }

  /** check_offers over the jobs: the alerts sent, the history rows written and the
      summary sent afterwards. */
  method CheckOffers(runs: seq<JobRun>, now: string)
      returns (alerts: seq<Report>, history: seq<HistoryRow>, summary: seq<(string, Report)>)
    requires WellScraped(runs)
    ensures alerts == Compressed(Reports(runs), AlertMask(runs))
    ensures history == Compressed(HistoryRows(runs, now), RecordMask(runs))
    ensures summary == Summary(runs)
  {
    alerts, history, summary := [], [], [];
    for k := 0 to |runs|
      invariant alerts == Compressed(Reports(runs)[..k], AlertMask(runs)[..k])
      invariant history == Compressed(HistoryRows(runs, now)[..k], RecordMask(runs)[..k])
      invariant summary == Summary(runs[..k])
    {
      var alert, row, entry := CheckJob(runs[k], now);
      alerts := alerts + alert;
      history := history + row;
      if entry != [] {
        summary := Upsert(summary, entry[0].name, entry[0]);
      }
      CompressedStep(Reports(runs), AlertMask(runs), k);
      CompressedStep(HistoryRows(runs, now), RecordMask(runs), k);
      SummaryStep(runs, k);
    }
    assert runs[..|runs|] == runs;
    assert Reports(runs)[..|runs|] == Reports(runs);
    assert AlertMask(runs)[..|runs|] == AlertMask(runs);
    assert HistoryRows(runs, now)[..|runs|] == HistoryRows(runs, now);
    assert RecordMask(runs)[..|runs|] == RecordMask(runs);
  }

  /** One job of check_offers: the alert it sends, the history row it writes and
      the summary entry it records (each empty when not sent or not recorded). */
  method CheckJob(run: JobRun, now: string) returns (alert: seq<Report>, row: seq<HistoryRow>, entry: seq<Report>)
    requires run.scraped.Some? ==> Scraped(run)
    ensures alert == (if Alerts(run) then [ReportOf(run)] else [])
    ensures row == (if Recorded(run) then [HistoryRowOf(run, now)] else [])
    ensures entry == (if Recorded(run) then [ReportOf(run)] else [])
  {
    alert, row, entry := [], [], [];
    if run.scraped.None? {
      return;
    }
    var offers := run.scraped.value;
    var name := if run.job.alias != "" then run.job.alias else offers[0].article;
    var cmMin := CheapestPrice(offers);
    var ctMin := None;
    if run.job.blueprintId != 0 {
      ctMin := ZeroLowestPrice(run.zeroResponse, run.job.blueprintId);
    }
    var report := Report(name, run.job.url, offers, cmMin, ctMin, run.job.targetPrice);
    if run.job.notify && cmMin.Some? && cmMin.value <= run.job.targetPrice {
      alert := [report];
    }
    if !run.job.alertOnly {
      row := [HistoryRow(name, now, cmMin, ctMin, run.job.targetPrice)];
      entry := [report];
    }
  }

  lemma SummaryStep(runs: seq<JobRun>, k: nat)
    requires k < |runs|
    ensures Summary(runs[..k + 1]) == if Recorded(runs[k])
      then Upsert(Summary(runs[..k]), ReportOf(runs[k]).name, ReportOf(runs[k]))
      else Summary(runs[..k])
  {
    assert runs[..k + 1][..k] == runs[..k];
  }

  // ------------------------------------------------------- summary properties

  lemma {:induction false} UpsertLookup(s: seq<(string, Report)>, key: string, v: Report, other: string)
    ensures Lookup(Upsert(s, key, v), other) == if other == key then Some(v) else Lookup(s, other)
  {
    if s != [] && s[0].0 != key {
      UpsertLookup(s[1..], key, v, other);
    }
  }

  lemma {:induction false} UpsertKeys(s: seq<(string, Report)>, key: string, v: Report)
    ensures forall i | 0 <= i < |Upsert(s, key, v)| :: Upsert(s, key, v)[i].0 == key || exists j | 0 <= j < |s| :: s[j].0 == Upsert(s, key, v)[i].0
  {
    if s != [] && s[0].0 != key {
      UpsertKeys(s[1..], key, v);
      var u := Upsert(s, key, v);
      forall i | 1 <= i < |u| && u[i].0 != key ensures exists j | 0 <= j < |s| :: s[j].0 == u[i].0 {
        var j :| 0 <= j < |s[1..]| && s[1..][j].0 == u[i].0;
        assert s[j + 1].0 == u[i].0;
      }
    } else if s != [] {
      var u := Upsert(s, key, v);
      forall i | 1 <= i < |u| ensures s[i].0 == u[i].0 {
      }
    }
  }

  lemma {:induction false} UpsertDistinct(s: seq<(string, Report)>, key: string, v: Report)
    requires DistinctKeys(s)
    ensures DistinctKeys(Upsert(s, key, v))
  {
    if s != [] && s[0].0 != key {
      UpsertDistinct(s[1..], key, v);
      UpsertKeys(s[1..], key, v);
      var u := Upsert(s, key, v);
      forall j | 1 <= j < |u| ensures u[0].0 != u[j].0 {
        var w := Upsert(s[1..], key, v);
        assert u[j] == w[j - 1];
        if w[j - 1].0 != key {
          var i :| 0 <= i < |s[1..]| && s[1..][i].0 == w[j - 1].0;
          assert s[i + 1].0 == w[j - 1].0;
        }
      }
    }
  }

  /** Names in the summary are distinct: a dict holds each key once. */
  lemma {:induction false} SummaryDistinct(runs: seq<JobRun>)
    ensures DistinctKeys(Summary(runs))
  {
    if runs != [] {
      SummaryDistinct(runs[..|runs| - 1]);
      var run := runs[|runs| - 1];
      if Recorded(run) {
        UpsertDistinct(Summary(runs[..|runs| - 1]), ReportOf(run).name, ReportOf(run));
      }
    }
  }

  /** Reference: the report of the last recorded job with the given name. */
  function LastRecorded(runs: seq<JobRun>, name: string): Option<Report>
  {
    if runs == [] then None
    else
      var run := runs[|runs| - 1];
      if Recorded(run) && ReportOf(run).name == name then Some(ReportOf(run))
      else LastRecorded(runs[..|runs| - 1], name)
  }

  /** Each name in the summary holds the entry of the last recorded job with that name. */
  lemma {:induction false} SummaryLookup(runs: seq<JobRun>, name: string)
    ensures Lookup(Summary(runs), name) == LastRecorded(runs, name)
  {
    if runs != [] {
      SummaryLookup(runs[..|runs| - 1], name);
      var run := runs[|runs| - 1];
      if Recorded(run) {
        UpsertLookup(Summary(runs[..|runs| - 1]), ReportOf(run).name, ReportOf(run), name);
      }
    }
  }

  /** Every alert met its target: its cheapest price is set and at most the target. */
  lemma AlertsMeetTarget(runs: seq<JobRun>)
    ensures forall a | a in Compressed(Reports(runs), AlertMask(runs)) ::
      a.cmMin.Some? && a.cmMin.value <= a.target
  {
    forall a | a in Compressed(Reports(runs), AlertMask(runs))
      ensures a.cmMin.Some? && a.cmMin.value <= a.target
    {
      var c := Compressed(Reports(runs), AlertMask(runs));
      var p :| 0 <= p < |c| && c[p] == a;
      CompressedLength(Reports(runs), AlertMask(runs));
      var k := RankCovers(AlertMask(runs), p);
      CompressedAt(Reports(runs), AlertMask(runs), k);
    }
  }
}
