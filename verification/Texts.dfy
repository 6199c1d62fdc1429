/** Decimal numbers, and texts made of pieces between semicolons. */
module Texts {

  predicate IsDigit(c: char) {
    '0' <= c <= '9'
  }

  function Decimal(n: nat): string {
    if n < 10 then [('0' as int + n) as char] else Decimal(n / 10) + [('0' as int + n % 10) as char]
  }

  predicate AllDigits(text: string) {
    forall i | 0 <= i < |text| :: IsDigit(text[i])
  }

  function Number(digits: string): nat
    requires AllDigits(digits)
  {
    if digits == "" then 0
    else
      assert IsDigit(digits[|digits| - 1]);
      10 * Number(digits[..|digits| - 1]) + (digits[|digits| - 1] as int - '0' as int)
  }

  lemma {:induction false} DecimalNumber(n: nat)
    ensures var d := Decimal(n); d != "" && AllDigits(d) && Number(d) == n
  {
    var d := Decimal(n);
    if n < 10 {
      assert d[..0] == "" && Number("") == 0;
    } else {
      DecimalNumber(n / 10);
      assert d[..|d| - 1] == Decimal(n / 10);
    }
  }

  /** The pieces between the semicolons. */
  function Split(text: string): (pieces: seq<string>)
    ensures |pieces| > 0
  {
    if text == "" then [""]
    else
      var pieces, c := Split(text[..|text| - 1]), text[|text| - 1];
      if c == ';' then pieces + [""]
      else pieces[..|pieces| - 1] + [pieces[|pieces| - 1] + [c]]
  }

  predicate NoSemicolon(text: string) {
    ';' !in text
  }

  lemma {:induction false} SplitPiece(text: string, piece: string)
    requires NoSemicolon(piece)
    ensures var pieces := Split(text); Split(text + piece) == pieces[..|pieces| - 1] + [pieces[|pieces| - 1] + piece]
  {
    hide *;
    var pieces := Split(text);
    if piece == "" {
      assert text + piece == text;
      Regather(pieces);
    } else {
      var k := |piece| - 1;
      InitPlain(piece);
      SplitPiece(text, piece[..k]);
      SplitMore(text + piece[..k], piece[k]);
      assert piece[..k] + [piece[k]] == piece;
      assert text + piece[..k] + [piece[k]] == text + piece;
      Regroup(pieces, piece[..k], piece[k]);
    }
  }

  lemma InitPlain(piece: string)
    requires NoSemicolon(piece) && piece != ""
    ensures NoSemicolon(piece[..|piece| - 1]) && piece[|piece| - 1] != ';'
  {
  }

  lemma Regather(pieces: seq<string>)
    requires |pieces| > 0
    ensures pieces[..|pieces| - 1] + [pieces[|pieces| - 1] + ""] == pieces
  {
    assert pieces[|pieces| - 1] + "" == pieces[|pieces| - 1];
  }

  lemma Regroup(pieces: seq<string>, a: string, c: char)
    requires |pieces| > 0
    ensures var n := |pieces| - 1;
            var longer := pieces[..n] + [pieces[n] + a];
            longer[..|longer| - 1] + [longer[|longer| - 1] + [c]] == pieces[..n] + [pieces[n] + (a + [c])]
  {
    var n := |pieces| - 1;
    assert pieces[n] + a + [c] == pieces[n] + (a + [c]);
  }

  lemma SplitMore(text: string, c: char)
    ensures var pieces := Split(text);
            Split(text + [c])
            == if c == ';' then pieces + [""] else pieces[..|pieces| - 1] + [pieces[|pieces| - 1] + [c]]
  {
    assert (text + [c])[..|text|] == text;
  }

  lemma SplitClosed(text: string, body: seq<string>, piece: string)
    requires Split(text) == body + [""] && NoSemicolon(piece)
    ensures Split(text + piece + ";") == body + [piece] + [""]
  {
    SplitPiece(text, piece);
    assert (body + [""])[..|body|] == body && "" + piece == piece;
    assert (text + piece + ";")[..|text + piece|] == text + piece;
  }
}
