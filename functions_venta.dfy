// The text helpers of the GoatBots selling script (functionsVenta.py): the SVG markup
// guardarimg writes, the first number textitobonito reads out of the OCR text, and the
// Telegram message and e-mail body with their two price placeholders filled in. The
// rendering, the OCR engine, the files, SMTP and Telegram are the environment: the
// OCR text is a parameter and the messages are returned instead of sent.

module FunctionsVenta {
  import opened Text
  import opened Numerals

  // -------------------------------------------------------------- guardarimg

  /** The attribute guardarimg splices into the markup. */
  const Attribute: string := " height=\"2000\" width=\"9000\""

  /** The markup once the list brackets are stripped and every symbol tag is renamed to svg. */
  function Cleaned(imagen: string): (s: string)
    ensures !Contains(s, "symbol")
  {
    var u := Strip(Strip(imagen, '['), ']');
    NoSymbolLeft(u);
    Replace(u, "symbol", "svg")
  }

  /** After replacing every "symbol" by "svg" no "symbol" is left: a replacement
      cannot create a new occurrence. */
  lemma {:induction false} NoSymbolLeft(u: string)
    ensures !Contains(Replace(u, "symbol", "svg"), "symbol")
    decreases |u|
  {
    var pat := "symbol";
    if |u| < |pat| {
      forall i | 0 <= i <= |u| ensures !OccursAt(u, pat, i) {
      }
    } else if u[..|pat|] == pat {
      NoSymbolLeft(u[|pat|..]);
      NoSymbolAfterSvg(Replace(u[|pat|..], pat, "svg"));
    } else {
      NoSymbolLeft(u[1..]);
      NoSymbolAfterChar(u, Replace(u[1..], pat, "svg"));
    }
  }

  /** "svg" in front of a text without "symbol" does not make one. */
  lemma NoSymbolAfterSvg(rest: string)
    requires !Contains(rest, "symbol")
    ensures !Contains("svg" + rest, "symbol")
  {
    var pat := "symbol";
    var r := "svg" + rest;
    assert pat[0] == 's' && pat[1] == 'y';
    assert r[0] == 's' && r[1] == 'v' && r[2] == 'g';
    forall i | 0 <= i <= |r| ensures !OccursAt(r, pat, i) {
      if i + |pat| <= |r| {
        if i == 0 {
          assert r[i..i + |pat|][1] == r[1];
        } else if i < 3 {
          assert r[i..i + |pat|][0] == r[i];
        } else {
          assert r[i..i + |pat|] == rest[i - 3..i - 3 + |pat|];
          assert !OccursAt(rest, pat, i - 3);
        }
      }
    }
  }

  /** Keeping the first character of u in front of the replaced rest does not make a
      "symbol" when u does not start with one. */
  lemma NoSymbolAfterChar(u: string, rest: string)
    requires |u| >= 6 && u[..6] != "symbol"
    requires rest == Replace(u[1..], "symbol", "svg") && !Contains(rest, "symbol")
    ensures !Contains([u[0]] + rest, "symbol")
  {
    var pat := "symbol";
    var r := [u[0]] + rest;
    forall i | 0 <= i <= |r| ensures !OccursAt(r, pat, i) {
      if i + |pat| <= |r| {
        if i == 0 {
          if u[0] == 's' {
            NoSymbolAtFront(u, rest);
            assert r[0..6][1..] == rest[..5];
          } else {
            assert r[0..6][0] == u[0];
          }
        } else {
          assert r[i..i + |pat|] == rest[i - 1..i - 1 + |pat|];
          assert !OccursAt(rest, pat, i - 1);
        }
      }
    }
  }

  /** When u does not start with "symbol", the text replace makes of u[1..] does not
      start with the "ymbol" that would complete one. */
  lemma NoSymbolAtFront(u: string, rest: string)
    requires |u| >= 6 && u[..6] != "symbol" && u[0] == 's'
    requires rest == Replace(u[1..], "symbol", "svg") && |rest| >= 5
    ensures rest[..5] != "ymbol"
  {
    if forall j | 0 <= j < 5 :: rest[j] != 's' {
      ReplaceCopiesPrefix(u[1..], 5, "symbol", "svg");
      assert u[..6] == [u[0]] + u[1..][..5];
    } else {
      var j :| 0 <= j < 5 && rest[j] == 's';
      assert rest[..5][j] == 's';
    }
  }

  /** Where guardarimg inserts the attribute: after the first 41 characters, or at the
      end of shorter markup. */
  function InsertAt(s: string): (m: nat)
    ensures m <= |s| && (m < 41 ==> m == |s|)
  {
    if |s| < 41 then |s| else 41
  }

  /** The attribute inserted into markup s. */
  function Insert(s: string): (text: string)
    ensures var m := InsertAt(s);
      |text| == |s| + |Attribute| && text[..m] == s[..m]
      && text[m..m + |Attribute|] == Attribute && text[m + |Attribute|..] == s[m..]
  {
    var m := InsertAt(s);
    var text := s[..m] + Attribute + s[m..];
    assert text[..m] == s[..m];
    assert text[m..m + |Attribute|] == Attribute;
    assert text[m + |Attribute|..] == s[m..];
    text
  }

  /** Taking the attribute out again gives back the markup. */
  lemma InsertInverse(s: string)
    ensures Insert(s)[..InsertAt(s)] + Insert(s)[InsertAt(s) + |Attribute|..] == s
  {
    assert s[..InsertAt(s)] + s[InsertAt(s)..] == s;
  }

  /** The file guardarimg writes. */
  function GuardarImg(imagen: string): (text: string)
    ensures |text| == |Cleaned(imagen)| + 27
    ensures text[InsertAt(Cleaned(imagen))..InsertAt(Cleaned(imagen)) + |Attribute|] == Attribute
    ensures text[..InsertAt(Cleaned(imagen))] + text[InsertAt(Cleaned(imagen)) + |Attribute|..] == Cleaned(imagen)
  {
    InsertInverse(Cleaned(imagen));
    Insert(Cleaned(imagen))
  }

  // ------------------------------------------------------------ textitobonito

  /** A match of the pattern -?\d+\.?\d* starts at p: a digit, or a minus sign
      followed by a digit. */
  predicate NumberStart(t: string, p: nat)
  {
    p < |t| && (IsDigit(t[p]) || (t[p] == '-' && p + 1 < |t| && IsDigit(t[p + 1])))
  }

  /** The leftmost position at or after p where a match starts. */
  function FirstNumber(t: string, p: nat): (r: Option<nat>)
    requires p <= |t|
    ensures r.Some? ==> p <= r.value && NumberStart(t, r.value)
    ensures r.Some? ==> forall q | p <= q < r.value :: !NumberStart(t, q)
    ensures r.None? <==> forall q | p <= q < |t| :: !NumberStart(t, q)
    decreases |t| - p
  {
    if p == |t| then None
    else if NumberStart(t, p) then Some(p)
    else FirstNumber(t, p + 1)
  }

  /** Where the greedy match starting at p ends: the digits, an optional dot and the
      digits after it. */
  function NumberEnd(t: string, p: nat): (e: nat)
    requires NumberStart(t, p)
    ensures p < e <= |t|
  {
    var d := DigitRun(t, if t[p] == '-' then p + 1 else p);
    if d < |t| && t[d] == '.' then DigitRun(t, d + 1) else d
  }

  /** The matched text after its minus sign: a digit, then digits with at most one dot
      right after the first run of digits. */
  lemma MatchShape(t: string, p: nat, q: nat)
    requires NumberStart(t, p) && q == (if t[p] == '-' then p + 1 else p)
    ensures q < NumberEnd(t, p) && IsDigit(t[q])
    ensures forall i | q <= i < NumberEnd(t, p) :: IsDigit(t[i]) || (t[i] == '.' && i == DigitRun(t, q))
  {
    var d := DigitRun(t, q);
    var e := NumberEnd(t, p);
    if d < |t| && t[d] == '.' {
      var e2 := DigitRun(t, d + 1);
      assert e == e2;
      forall i | q <= i < e ensures IsDigit(t[i]) || (t[i] == '.' && i == d) {
        if i > d {
          assert d + 1 <= i < e2;
        }
      }
    } else {
      assert e == d;
    }
  }

  /** The matched text; float() always accepts it. */
  function Lexeme(t: string, p: nat): (s: string)
    requires NumberStart(t, p)
    ensures |s| > 0 && FloatAlphabet(s) && ParseFloat(s).Some?
  {
    var q := if t[p] == '-' then p + 1 else p;
    var d := DigitRun(t, q);
    var e := NumberEnd(t, p);
    var s := t[p..e];
    var u := t[q..e];
    MatchShape(t, p, q);
    assert forall i | 0 <= i < |u| :: IsDigit(u[i]) || (u[i] == '.' && i == d - q) by {
      forall i | 0 <= i < |u| ensures IsDigit(u[i]) || (u[i] == '.' && i == d - q) {
        assert u[i] == t[q + i];
      }
    }
    assert IsDigit(u[0]);
    assert !(t[p] == '-') ==> u == s;
    assert t[p] == '-' ==> u == s[1..];
    s
  }

  /** What textitobonito returns: the first number in the text, or "null" when there is none. */
  datatype Reading = Number(value: real) | NullText

  /** The value textitobonito reads out of the OCR text. */
  function TextitoBonito(ocr: string): (r: Reading)
    ensures r.NullText? <==> forall p | 0 <= p < |ocr| :: !NumberStart(ocr, p)
    ensures r.Number? ==> exists p | 0 <= p < |ocr| ::
      NumberStart(ocr, p) && (forall q | 0 <= q < p :: !NumberStart(ocr, q))
      && ParseFloat(Lexeme(ocr, p)) == Some(r.value)
  {
    match FirstNumber(ocr, 0)
    case None => NullText
    case Some(p) => Number(ParseFloat(Lexeme(ocr, p)).value)
  }

  /** The first match is found where it is. */
  lemma {:induction false} FirstNumberAt(t: string, p: nat, k: nat)
    requires p <= k && NumberStart(t, k)
    requires forall q | p <= q < k :: !NumberStart(t, q)
    ensures FirstNumber(t, p) == Some(k)
    decreases k - p
  {
    if p < k {
      FirstNumberAt(t, p + 1, k);
    }
  }

  /** In before + the printed price + after, the first match starts where the price does. */
  lemma CentsMatchStart(before: string, c: nat, after: string)
    requires forall i | 0 <= i < |before| :: !IsDigit(before[i]) && before[i] != '-'
    ensures FirstNumber(before + CentsText(c, '.') + after, 0) == Some(|before|)
  {
    var ct := CentsText(c, '.');
    var t := before + ct + after;
    var b := |before|;
    assert ct[0] == NatToString(c / 100)[0];
    assert t[b] == ct[0];
    forall q | 0 <= q < b ensures !NumberStart(t, q) {
      assert t[q] == before[q];
    }
    FirstNumberAt(t, 0, b);
  }

  /** The match at the printed price is the whole printed price. */
  lemma CentsLexeme(before: string, c: nat, after: string)
    requires after == [] || !IsDigit(after[0])
    requires NumberStart(before + CentsText(c, '.') + after, |before|)
    ensures Lexeme(before + CentsText(c, '.') + after, |before|) == CentsText(c, '.')
  {
    var ct := CentsText(c, '.');
    var e := NatToString(c / 100);
    var t := before + ct + after;
    var b := |before|;
    assert ct == e + ['.', DigitChar(c / 10 % 10), DigitChar(c % 10)];
    assert forall k | b <= k < b + |e| :: t[k] == e[k - b];
    DigitRunFrom(t, b, b + |e|);
    var d := b + |e|;
    assert t[d] == '.' && IsDigit(t[d + 1]) && IsDigit(t[d + 2]);
    assert d + 3 < |t| ==> t[d + 3] == after[0];
    DigitRunFrom(t, d + 1, d + 3);
    assert NumberEnd(t, b) == b + |ct|;
    assert t[b..b + |ct|] == ct;
  }

  /** A price printed with two decimals amid text without digits or minus signs is read
      back as that price. */
  lemma ReadsCents(before: string, c: nat, after: string)
    requires forall i | 0 <= i < |before| :: !IsDigit(before[i]) && before[i] != '-'
    requires after == [] || !IsDigit(after[0])
    ensures TextitoBonito(before + CentsText(c, '.') + after) == Number((c as real) / 100.0)
  {
    CentsMatchStart(before, c, after);
    CentsLexeme(before, c, after);
    CentsRoundTrip(c);
  }

  /** Text without any digit reads as "null". */
  lemma NoDigitsNull(ocr: string)
    requires forall i | 0 <= i < |ocr| :: !IsDigit(ocr[i])
    ensures TextitoBonito(ocr) == NullText
  {
  }

  // ----------------------------------------------------- filling the messages

  const Placeholder1: string := "dinero1"
  const Placeholder2: string := "dinero2"

  /** The two replace calls both messages go through, in their order. */
  function Fill(template: string, precio1: string, precio2: string): string
  {
    Replace(Replace(template, Placeholder1, precio1), Placeholder2, precio2)
  }

  /** A piece of a template with no placeholder in it that does not end in a placeholder
      character, so that no placeholder can start in it and end after it. */
  predicate Plain(s: string)
  {
    !Contains(s, Placeholder1) && !Contains(s, Placeholder2)
    && (s == [] || (s[|s| - 1] !in Placeholder1 && s[|s| - 1] !in Placeholder2))
  }

  lemma PlainConcat(x: string, y: string)
    requires Plain(x) && Plain(y)
    ensures Plain(x + y)
  {
    if x == [] {
      assert x + y == y;
    } else {
      NoStraddleByLast(x, y, Placeholder1);
      NoStraddleByLast(x, y, Placeholder2);
      AbsentConcat(x, y, Placeholder1);
      AbsentConcat(x, y, Placeholder2);
      if y == [] {
        assert x + y == x;
      }
    }
  }

  /** A piece lacking one of the letters the two placeholders share is plain. */
  lemma PlainLacking(s: string, k: nat)
    requires k < 6 && Placeholder1[k] !in s
    requires s == [] || (s[|s| - 1] !in Placeholder1 && s[|s| - 1] !in Placeholder2)
    ensures Plain(s)
  {
    LacksChar(s, Placeholder1, k);
    LacksChar(s, Placeholder2, k);
  }

  /** A piece lacking the digits of both placeholders is plain. */
  lemma PlainLackingDigits(s: string)
    requires '1' !in s && '2' !in s
    requires s == [] || (s[|s| - 1] !in Placeholder1 && s[|s| - 1] !in Placeholder2)
    ensures Plain(s)
  {
    LacksChar(s, Placeholder1, 6);
    LacksChar(s, Placeholder2, 6);
  }

  /** Nothing from the second placeholder on holds the first one. */
  lemma RestLacksFirst(middle: string, tail: string)
    requires Plain(middle) && Plain(tail)
    ensures !Contains(middle + (Placeholder2 + tail), Placeholder1)
  {
    LacksChar(Placeholder2, Placeholder1, 6);
    NoStraddleByLast(Placeholder2, tail, Placeholder1);
    AbsentConcat(Placeholder2, tail, Placeholder1);
    if middle != [] {
      NoStraddleByLast(middle, Placeholder2 + tail, Placeholder1);
    }
    AbsentConcat(middle, Placeholder2 + tail, Placeholder1);
  }

  lemma Regroup(a: string, b: string, c: string, d: string, e: string)
    ensures a + b + c + d + e == a + b + (c + (d + e))
  {
  }

  /** The second replace puts precio2 in place of the second placeholder, when precio1
      did not bring in another one. */
  lemma FillSecond(head: string, middle: string, tail: string, precio1: string, precio2: string)
    requires Plain(head) && Plain(middle) && Plain(tail) && |middle| > 0 && '2' !in middle
    requires !Contains(precio1, Placeholder2)
    ensures Replace(head + precio1 + middle + Placeholder2 + tail, Placeholder2, precio2)
      == head + precio1 + middle + precio2 + tail
  {
    var x := head + precio1 + middle;
    if head != [] {
      NoStraddleByLast(head, precio1, Placeholder2);
    }
    AbsentConcat(head, precio1, Placeholder2);
    NoStraddleByFirst(head + precio1, middle, Placeholder2);
    AbsentConcat(head + precio1, middle, Placeholder2);
    ReplaceSplice(x, Placeholder2, tail, precio2);
  }

  /** Filling a template with one occurrence of each placeholder puts the prices in their
      places, unless the first price itself brings in the second placeholder. */
  lemma FillPlaceholders(head: string, middle: string, tail: string, precio1: string, precio2: string)
    requires Plain(head) && Plain(middle) && Plain(tail) && |middle| > 0 && '2' !in middle
    requires !Contains(precio1, Placeholder2)
    ensures Fill(head + Placeholder1 + middle + Placeholder2 + tail, precio1, precio2)
      == head + precio1 + middle + precio2 + tail
  {
    RestLacksFirst(middle, tail);
    Regroup(head, Placeholder1, middle, Placeholder2, tail);
    ReplaceSplice(head, Placeholder1, middle + (Placeholder2 + tail), precio1);
    Regroup(head, precio1, middle, Placeholder2, tail);
    FillSecond(head, middle, tail, precio1, precio2);
  }

  // ----------------------------------------------------------------- telegram

  const TelegramTemplate: string := "FON Normal a dinero1 TIX" + "\n" + "FON Promo a dinero2 TIX"

  // The message around its placeholders.
  const TelegramHead: string := "FON Normal a "
  const TelegramMiddle: string := " TIX\nFON Promo a "
  const TelegramTail: string := " TIX"

  /** The message telegram sends. */
  function TelegramMessage(precio1: string, precio2: string): (m: string)
    ensures !Contains(precio1, Placeholder2) ==>
      m == TelegramHead + precio1 + TelegramMiddle + precio2 + TelegramTail
  {
    var m := Fill(TelegramTemplate, precio1, precio2);
    assert !Contains(precio1, Placeholder2) ==>
      m == TelegramHead + precio1 + TelegramMiddle + precio2 + TelegramTail by {
      if !Contains(precio1, Placeholder2) {
        TelegramPieces();
        TelegramHeadPlain();
        TelegramMiddlePlain();
        TelegramTailPlain();
        FillPlaceholders(TelegramHead, TelegramMiddle, TelegramTail, precio1, precio2);
      }
    }
    m
  }

  lemma TelegramPieces()
    ensures TelegramTemplate == TelegramHead + Placeholder1 + TelegramMiddle + Placeholder2 + TelegramTail
  {
    assert "FON Normal a dinero1 TIX" == TelegramHead + Placeholder1 + " TIX";
    assert "FON Promo a dinero2 TIX" == "FON Promo a " + Placeholder2 + TelegramTail;
    assert TelegramMiddle == " TIX" + "\n" + "FON Promo a ";
  }

  lemma TelegramHeadPlain() ensures Plain(TelegramHead) { PlainLacking(TelegramHead, 0); }
  lemma TelegramMiddlePlain() ensures Plain(TelegramMiddle) && '2' !in TelegramMiddle { PlainLacking(TelegramMiddle, 0); }
  lemma TelegramTailPlain() ensures Plain(TelegramTail) { PlainLacking(TelegramTail, 0); }

  // -------------------------------------------------------------- notify_user

  // The e-mail body, cut around its two placeholders into pieces each lacking some
  // placeholder character; the pieces are sums of short literals only to keep the
  // proofs that they lack it small.
  const Head0: string :=
    "      " + "  <p>&" + "nbsp;<" + "/p>\n  " + "      " + "<div>\n"
    + "      " + "  "
  const Head1: string :=
    "<p sty" + "le=\"fo" + "nt-siz" + "e: 20p" + "x;\">Lo" + "s mone"
    + "tes es" + "t&"
  const Head2: string :=
    "aacute" + ";n fre" + "scorro" + "s, fre" + "scorro" + "s.</p>"
    + "\n     " + "  "
  const Head3: string :=
    " <p st" + "yle=\"f" + "ont-si" + "ze: 20" + "px;\">M" + "onete "
    + "Normal" + "&"
  const Head4: string :=
    "nbsp;<" + "span s" + "tyle=\"" + "text-d" + "ecorat" + "ion: u"
    + "nderl"
  const Head5: string :=
    "ine;\">" + " "
  const Middle0: string :=
    " TIX;<" + "/span>" + " y Mon" + "ete Pr" + "omo <s" + "pan st"
    + "yle=\"t" + "ex"
  const Middle1: string :=
    "t-deco" + "ration" + ": unde" + "rline;" + "\"> "
  const Tail0: string :=
    " TIX;<" + "/span>" + ".<br /" + "><br /" + ">Yo qu" + "e t&ua"
    + "cute; "
  const Tail1: string :=
    "ni me " + "lo pen" + "saba.&" + "nbsp;<" + "/p>\n  " + "      "
    + "</div>" + "\n "
  const Tail2: string :=
    "      " + " <div>" + "\n     " + "   <h2" + "><br /" + "><stro"
    + "ng><a " + "h"
  const Tail3: string :=
    "ref=\"h" + "ttps:/" + "/www.g" + "oatbot" + "s.com/" + "card/r"
    + "agavan" + "-"
  const Tail4: string :=
    "nimble" + "-pilfe" + "rer\">A" + " compr" + "ar!!!!" + "!</a><"
    + "/stron" + "g>"
  const Tail5: string :=
    "<br />" + "<br />" + "</h2>\n" + "      " + "  </di" + "v>\n   "
    + "     <"
  const Tail6: string :=
    "div>\n " + "      " + " <p>&n" + "bsp;</" + "p>\n   " + "     <"
    + "/div>\n" + "  "
  const Tail7: string :=
    "      " + "<div>\n" + "      " + "  <p s" + "tyle=\"" + "text-a"
    + "lign: "
  const Tail8: string :=
    "right;" + "\"><br " + "/><br " + "/><br " + "/><em>" + "\"Metes"
    + " mono," + " s"
  const Tail9: string :=
    "acas t" + "ripa\"<" + "/em></" + "p>\n   " + "     <" + "/div>\n"
    + "      " + "  "

  const Head: string := Head0 + Head1 + Head2 + Head3 + Head4 + Head5
  const Middle: string := Middle0 + Middle1
  const Tail: string := Tail0 + Tail1 + Tail2 + Tail3 + Tail4 + Tail5 + Tail6 + Tail7 + Tail8 + Tail9

  /** The HTML body of the e-mail, before the prices are filled in. */
  const Html: string := Head + Placeholder1 + Middle + Placeholder2 + Tail

  /** The HTML body notify_user sends. */
  function NotifyBody(precio1: string, precio2: string): (body: string)
    ensures !Contains(precio1, Placeholder2) ==> body == Head + precio1 + Middle + precio2 + Tail
  {
    var body := Fill(Html, precio1, precio2);
    assert !Contains(precio1, Placeholder2) ==> body == Head + precio1 + Middle + precio2 + Tail by {
      if !Contains(precio1, Placeholder2) {
        HtmlPiecesPlain();
        FillPlaceholders(Head, Middle, Tail, precio1, precio2);
      }
    }
    body
  }

  lemma Head0Plain() ensures Plain(Head0) { PlainLacking(Head0, 3); }
  lemma Head1Plain() ensures Plain(Head1) { PlainLacking(Head1, 0); }
  lemma Head2Plain() ensures Plain(Head2) { PlainLacking(Head2, 0); }
  lemma Head3Plain() ensures Plain(Head3) { PlainLacking(Head3, 0); }
  lemma Head4Digits() ensures '1' !in Head4 { }
  lemma Head4Digit2() ensures '2' !in Head4 { }
  lemma Head4Plain() ensures Plain(Head4) { Head4Digits(); Head4Digit2(); PlainLackingDigits(Head4); }
  lemma Head5Plain() ensures Plain(Head5) { PlainLacking(Head5, 0); }
  lemma Middle0Digits() ensures '1' !in Middle0 { }
  lemma Middle0Digit2() ensures '2' !in Middle0 { }
  lemma Middle0Plain() ensures Plain(Middle0) && '2' !in Middle0 { Middle0Digits(); Middle0Digit2(); PlainLackingDigits(Middle0); }
  lemma Middle1Digits() ensures '1' !in Middle1 { }
  lemma Middle1Digit2() ensures '2' !in Middle1 { }
  lemma Middle1Plain() ensures Plain(Middle1) && '2' !in Middle1 { Middle1Digits(); Middle1Digit2(); PlainLackingDigits(Middle1); }
  lemma Tail0Plain() ensures Plain(Tail0) { PlainLacking(Tail0, 0); }
  lemma Tail1Plain() ensures Plain(Tail1) { PlainLacking(Tail1, 4); }
  lemma Tail2Plain() ensures Plain(Tail2) { PlainLacking(Tail2, 3); }
  lemma Tail3Plain() ensures Plain(Tail3) { PlainLacking(Tail3, 1); }
  lemma Tail4Plain() ensures Plain(Tail4) { PlainLacking(Tail4, 0); }
  lemma Tail5Plain() ensures Plain(Tail5) { PlainLacking(Tail5, 2); }
  lemma Tail6Plain() ensures Plain(Tail6) { PlainLacking(Tail6, 3); }
  lemma Tail7Plain() ensures Plain(Tail7) { PlainLacking(Tail7, 4); }
  lemma Tail8Plain() ensures Plain(Tail8) { PlainLacking(Tail8, 0); }
  lemma Tail9Plain() ensures Plain(Tail9) { PlainLacking(Tail9, 2); }

  /** The pieces before, between and after the placeholders are plain. */
  lemma HtmlPiecesPlain()
    ensures Plain(Head) && Plain(Middle) && Plain(Tail) && '2' !in Middle
  {
    Head0Plain(); Head1Plain(); Head2Plain(); Head3Plain(); Head4Plain(); Head5Plain();
    PlainConcat(Head0, Head1);
    PlainConcat(Head0 + Head1, Head2);
    PlainConcat(Head0 + Head1 + Head2, Head3);
    PlainConcat(Head0 + Head1 + Head2 + Head3, Head4);
    PlainConcat(Head0 + Head1 + Head2 + Head3 + Head4, Head5);
    Middle0Plain(); Middle1Plain();
    PlainConcat(Middle0, Middle1);
    Tail0Plain(); Tail1Plain(); Tail2Plain(); Tail3Plain(); Tail4Plain(); Tail5Plain(); Tail6Plain(); Tail7Plain(); Tail8Plain(); Tail9Plain();
    PlainConcat(Tail0, Tail1);
    PlainConcat(Tail0 + Tail1, Tail2);
    PlainConcat(Tail0 + Tail1 + Tail2, Tail3);
    PlainConcat(Tail0 + Tail1 + Tail2 + Tail3, Tail4);
    PlainConcat(Tail0 + Tail1 + Tail2 + Tail3 + Tail4, Tail5);
    PlainConcat(Tail0 + Tail1 + Tail2 + Tail3 + Tail4 + Tail5, Tail6);
    PlainConcat(Tail0 + Tail1 + Tail2 + Tail3 + Tail4 + Tail5 + Tail6, Tail7);
    PlainConcat(Tail0 + Tail1 + Tail2 + Tail3 + Tail4 + Tail5 + Tail6 + Tail7, Tail8);
    PlainConcat(Tail0 + Tail1 + Tail2 + Tail3 + Tail4 + Tail5 + Tail6 + Tail7 + Tail8, Tail9);
  }
}
