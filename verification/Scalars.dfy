// How a member cell is spelled as stored text and read back, each cell as the type it was.
module Scalars {
  import opened ExpressionText

  // A float is known by the text it prints as, which may carry an exponent.
  datatype Cell = Bare(s: string) | Truth(b: bool) | Whole64(i: int) | Float(printed: string)

  function Escape(s: string): string {
    if s == "" then ""
    else (if s[0] == '"' || s[0] == '\\' then ['\\', s[0]] else [s[0]]) + Escape(s[1..])
  }

  function Quoting(s: string): string { ['"'] + Escape(s) + ['"'] }

  predicate IsQuoted(s: string) { |s| >= 2 && s[0] == '"' && s[|s| - 1] == '"' }

  // A backslash gives way to the character after it, unless that ends the line.
  function Unescape(s: string): string {
    if s == "" then ""
    else if s[0] == '\\' && |s| > 1 && s[1] != '\n' then [s[1]] + Unescape(s[2..])
    else [s[0]] + Unescape(s[1..])
  }

  // An optionally negative decimal with digits both sides of the point.
  predicate PlainDecimal(s: string) {
    var u := Unsigned(s);
    exists k :: 0 < k < |u| - 1 && u[k] == '.' && Digits(u[..k]) && Digits(u[k + 1..])
  }

  function Unmark(text: string): Cell {
    if IsQuoted(text) then Bare(Unescape(text[1..|text| - 1]))
    else if text == "true" then Truth(true)
    else if text == "false" then Truth(false)
    else if IsWhole(text) then Whole64(if text[0] == '-' then 0 - NatOf(Unsigned(text)) else NatOf(Unsigned(text)))
    else if PlainDecimal(text) then Float(text)
    else Bare(text)
  }

  // What a cell is stored as. A string that would read back as anything else is quoted.
  function Stored(cell: Cell): string {
    match cell
    case Bare(s) => if Unmark(s) == cell then s else Quoting(s)
    case Truth(b) => if b then "true" else "false"
    case Whole64(i) => Signed(i)
    case Float(printed) => printed
  }

  lemma {:induction false} UnescapeUndoes(s: string)
    ensures Unescape(Escape(s)) == s
  {
    if s != "" {
      UnescapeUndoes(s[1..]);
      var rest := Escape(s[1..]);
      if s[0] == '"' || s[0] == '\\' {
        assert Escape(s) == ['\\', s[0]] + rest && Escape(s)[2..] == rest;
      } else {
        assert Escape(s) == [s[0]] + rest && Escape(s)[1..] == rest;
      }
      assert s == [s[0]] + s[1..];
    }
  }

  // Read by itself, a backslash gives way to what follows it, but stays before a line break and at the end.
  lemma BackslashReads(c: char, rest: string)
    ensures Unescape(['\\', c] + rest) == (if c == '\n' then ['\\', '\n'] else [c]) + Unescape(rest)
    ensures c != '\\' ==> Unescape([c] + rest) == [c] + Unescape(rest)
    ensures Unescape("\\") == "\\"
  {
    assert (['\\', c] + rest)[2..] == rest && (['\\', c] + rest)[1..] == [c] + rest;
    assert ([c] + rest)[1..] == rest;
  }

  lemma QuotingReadsBack(s: string)
    ensures Unmark(Quoting(s)) == Bare(s)
  {
    var text := Quoting(s);
    assert text[1..|text| - 1] == Escape(s);
    UnescapeUndoes(s);
  }

  lemma WholeReadsBack(i: int)
    ensures Unmark(Signed(i)) == Whole64(i)
  {
    var p := Signed(i);
    NumeralSpelling(i);
    NatOfNumeral(if i < 0 then -i else i);
    assert Digit(Unsigned(p)[0]);
    assert "true"[0] == 't' && "false"[0] == 'f';
  }

  lemma DecimalStarts(s: string)
    requires PlainDecimal(s)
    ensures '.' in s && s != "" && (s[0] == '-' || Digit(s[0]))
  {
    var u := Unsigned(s);
    var k :| 0 < k < |u| - 1 && u[k] == '.' && Digits(u[..k]) && Digits(u[k + 1..]);
    assert u[0] in u[..k];
    assert u[k] in u;
  }

  lemma WholeHasNoPoint(s: string)
    requires IsWhole(s)
    ensures '.' !in s
  {
    assert forall c :: c in s ==> c == '-' || c in Unsigned(s);
  }

  // Every string, boolean and whole number is read back as itself; a float is exactly when it
  // prints as a plain decimal.
  lemma ReadsBack(cell: Cell)
    ensures Unmark(Stored(cell)) == cell <==> (cell.Float? ==> PlainDecimal(cell.printed))
  {
    match cell {
      case Bare(s) =>
        if Unmark(s) != cell {
          QuotingReadsBack(s);
        }
      case Truth(b) =>
        assert "true"[0] == 't' && "false"[0] == 'f' && "true"[3] == 'e' && |"false"| == 5;
      case Whole64(i) => WholeReadsBack(i);
      case Float(printed) =>
        if PlainDecimal(printed) {
          DecimalStarts(printed);
          if IsWhole(printed) {
            WholeHasNoPoint(printed);
          }
        }
    }
  }

  predicate Plain(cell: Cell) { cell.Float? ==> PlainDecimal(cell.printed) }

  // So two cells that are stored alike are alike, whatever their types.
  lemma StoredApart(a: Cell, b: Cell)
    requires Plain(a) && Plain(b) && Stored(a) == Stored(b)
    ensures a == b
  {
    ReadsBack(a);
    ReadsBack(b);
  }

  // A float that prints with an exponent is stored as the string of the same letters is.
  lemma ExponentIsMistaken(printed: string)
    requires !PlainDecimal(printed) && Unmark(printed) == Bare(printed)
    ensures Stored(Float(printed)) == Stored(Bare(printed)) && Float(printed) != Bare(printed)
  {
  }

  // The float 1.0e+20 is stored as the string "1.0e+20" is.
  lemma LargeFloatIsMistaken()
    ensures Stored(Float("1.0e+20")) == Stored(Bare("1.0e+20")) == "1.0e+20"
    ensures Unmark(Stored(Float("1.0e+20"))) == Bare("1.0e+20")
  {
    var printed := "1.0e+20";
    assert !Digit(printed[4]) && printed[4] == Unsigned(printed)[4];
    forall k | 0 < k < |printed| - 1 && printed[k] == '.' ensures !Digits(printed[k + 1..]) {
      assert k == 1;
      assert printed[2..][2] == '+';
    }
    assert '+' in Unsigned(printed);
    assert printed != "true" && printed != "false";
    ExponentIsMistaken(printed);
  }

  // A string keeps its own spelling exactly when that spells no boolean, no number and no quoted text.
  lemma OwnSpelling(s: string)
    ensures Stored(Bare(s)) == s <==>
            !IsQuoted(s) && s != "true" && s != "false" && !IsWhole(s) && !PlainDecimal(s)
  {
    EscapeGrows(s);
    if IsQuoted(s) {
      UnescapeShrinks(s[1..|s| - 1]);
    }
  }

  lemma {:induction false} EscapeGrows(s: string)
    ensures |Escape(s)| >= |s|
  {
    if s != "" {
      EscapeGrows(s[1..]);
    }
  }

  lemma {:induction false} UnescapeShrinks(s: string)
    ensures |Unescape(s)| <= |s|
  {
    if s != "" {
      UnescapeShrinks(s[1..]);
      if |s| > 1 {
        UnescapeShrinks(s[2..]);
      }
    }
  }
}
