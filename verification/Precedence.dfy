// Which operator binds tighter, in the characters of the text: nothing here is read off the tables the
// parser and the printer share.
module Precedence {
  import opened Wrappers
  import opened ExpressionText

  // An operand as it is written: a path, a number or a keyword.
  predicate Leaf(t: Tree) {
    match t
    case Path(path) => Spellable(path)
    case Whole(_) => true
    case Decimal(spelled) => IsDecimal(spelled)
    case Word(word) => word == "true" || word == "false" || word == "nil"
    case _ => false
  }

  function Spelled(t: Tree): string
    requires Leaf(t)
  {
    match t
    case Path(path) => path
    case Whole(n) => Signed(n)
    case Decimal(spelled) => spelled
    case Word(word) => word
  }

  predicate Sum(c: char) { c == '+' || c == '-' }
  predicate Product(c: char) { c == '*' || c == '/' }

  // One operator between two texts, a space on either side.
  function Between(l: string, c: char, r: string): string { l + [' ', c, ' '] + r }

  lemma LeafPrints(t: Tree)
    requires Leaf(t)
    ensures Printable(t) && Level(t) == 3 && Print(t, false) == Spelled(t) && Spelled(t) != "" && NoneSlips(t)
    ensures Spelled(t)[0] != '"' && Last(Spelled(t)) != '"' && Last(Spelled(t)) != '?'
  {
    match t {
      case Path(path) => PathEnds(path);
      case Whole(n) =>
        NumeralSpelling(n);
        assert Digit(Unsigned(Signed(n))[0]);
      case Decimal(spelled) => DecimalSpelling(spelled);
      case Word(word) =>
    }
  }

  lemma LevelsOf(c: char)
    requires Sum(c) || Product(c)
    ensures Operator(c) && OpLevel(c) == if Product(c) then 2 else 1
  {
  }

  // An operation whose left operand's text neither opens with a quote nor ends in `?`.
  lemma InfixPrints(c: char, l: Tree, r: Tree)
    requires (Sum(c) || Product(c)) && Printable(l) && Printable(r) && NoneSlips(l) && NoneSlips(r)
    requires var left := Operand(l, OpLevel(c), false); left[0] != '"' && Last(left) != '?'
    ensures var t, left, right := Infix(c, l, r), Operand(l, OpLevel(c), false), Operand(r, OpLevel(c) + 1, false);
            && Printable(t) && NoneSlips(t) && Print(t, false) == Between(left, c, right)
            && Print(t, false)[0] == left[0] && Last(Print(t, false)) == Last(right)
            && Parse(Print(t, false)) == t
  {
    LevelsOf(c);
    var t := Infix(c, l, r);
    assert !Slips(t, false);
    hide Parse;
    PlainRoundTrip(t);
  }

  // A product is read before a sum on either side of it.
  lemma ProductsFirst(a: char, m: char, p: Tree, q: Tree, r: Tree)
    requires Sum(a) && Product(m) && Leaf(p) && Leaf(q) && Leaf(r)
    ensures Parse(Between(Between(Spelled(p), a, Spelled(q)), m, Spelled(r))) == Infix(a, p, Infix(m, q, r))
    ensures Parse(Between(Between(Spelled(p), m, Spelled(q)), a, Spelled(r))) == Infix(a, Infix(m, p, q), r)
  {
    hide Parse, Print, Leaf, NoneSlips, Slips;
    LeafPrints(p);
    LeafPrints(q);
    LeafPrints(r);
    LevelsOf(a);
    LevelsOf(m);
    InfixPrints(m, q, r);
    InfixPrints(a, p, Infix(m, q, r));
    Rebracketed(Spelled(p), a, Spelled(q), m, Spelled(r));
    InfixPrints(m, p, q);
    InfixPrints(a, Infix(m, p, q), r);
  }

  lemma Rebracketed(p: string, a: char, q: string, m: char, r: string)
    ensures Between(p, a, Between(q, m, r)) == Between(Between(p, a, q), m, r)
  {
  }

  // Two sums, or two products, are read from the left.
  lemma SameLevelFromTheLeft(c: char, d: char, p: Tree, q: Tree, r: Tree)
    requires (Sum(c) && Sum(d)) || (Product(c) && Product(d))
    requires Leaf(p) && Leaf(q) && Leaf(r)
    ensures Parse(Between(Between(Spelled(p), c, Spelled(q)), d, Spelled(r))) == Infix(d, Infix(c, p, q), r)
  {
    hide Parse, Print, Leaf, NoneSlips, Slips;
    LeafPrints(p);
    LeafPrints(q);
    LeafPrints(r);
    LevelsOf(c);
    LevelsOf(d);
    InfixPrints(c, p, q);
    InfixPrints(d, Infix(c, p, q), r);
  }

  // Brackets have read first what would be read last.
  lemma BracketsFirst(a: char, m: char, p: Tree, q: Tree, r: Tree)
    requires Sum(a) && Product(m) && Leaf(p) && Leaf(q) && Leaf(r)
    ensures Parse(Between("(" + Between(Spelled(p), a, Spelled(q)) + ")", m, Spelled(r))) == Infix(m, Infix(a, p, q), r)
    ensures Parse(Between(Spelled(p), m, "(" + Between(Spelled(q), a, Spelled(r)) + ")")) == Infix(m, p, Infix(a, q, r))
  {
    hide Parse, Print, Leaf, NoneSlips, Slips;
    LeafPrints(p);
    LeafPrints(q);
    LeafPrints(r);
    LevelsOf(a);
    LevelsOf(m);
    InfixPrints(a, p, q);
    InfixPrints(m, Infix(a, p, q), r);
    InfixPrints(a, q, r);
    InfixPrints(m, p, Infix(a, q, r));
  }

  // And so they do on the right of an operator of the same level.
  lemma BracketsOnTheRight(c: char, d: char, p: Tree, q: Tree, r: Tree)
    requires (Sum(c) && Sum(d)) || (Product(c) && Product(d))
    requires Leaf(p) && Leaf(q) && Leaf(r)
    ensures Parse(Between(Spelled(p), c, "(" + Between(Spelled(q), d, Spelled(r)) + ")")) == Infix(c, p, Infix(d, q, r))
  {
    hide Parse, Print, Leaf, NoneSlips, Slips;
    LeafPrints(p);
    LeafPrints(q);
    LeafPrints(r);
    LevelsOf(c);
    LevelsOf(d);
    InfixPrints(d, q, r);
    InfixPrints(c, p, Infix(d, q, r));
  }

  // ----- Operators that are not at the top -----

  predicate Bracketing(o: char, c: char) {
    (o == '(' && c == ')') || (o == '[' && c == ']') || (o == '{' && c == '}')
  }

  // Text without a quote or a bracket of its own.
  predicate Flat(s: string) {
    forall x :: x in s ==> x !in "\"'()[]{}"
  }

  lemma {:induction false} FlatScans(st: Scan, s: string, ops: seq<char>)
    requires st.quote.None? && st.depth >= 1 && Flat(s)
    ensures LastSplit(st, s, ops).None? && After(st, s).quote.None? && After(st, s).depth == st.depth
    decreases |s|
  {
    if s != "" {
      assert s[0] in s && forall x :: x in s[1..] ==> x in s;
      FlatScans(Step(st, s[0]), s[1..], ops);
    }
  }

  // No text is split at an operator between brackets of any kind, and none at an operator between quotes.
  lemma NotSplitInside(name: string, o: char, inner: string, c: char, q: char)
    requires (forall x :: x in name ==> 'a' <= x <= 'z') && Flat(inner) && Bracketing(o, c) && (q == '"' || q == '\'')
    ensures LastSplit(START, name + [o] + inner + [c], ['+', '-']).None?
    ensures LastSplit(START, name + [o] + inner + [c], ['*', '/']).None?
    ensures LastSplit(START, name + [q] + inner + [q], ['+', '-']).None?
    ensures LastSplit(START, name + [q] + inner + [q], ['*', '/']).None?
  {
    SplitsNowhere(name, o, inner, c, ['+', '-']);
    SplitsNowhere(name, o, inner, c, ['*', '/']);
    QuotedNowhere(name, q, inner, ['+', '-']);
    QuotedNowhere(name, q, inner, ['*', '/']);
  }

  // A `-` is an operator right behind a letter, a digit, an underscore, a closing bracket that ends an
  // operand or a quote, and a sign behind anything else; the other operators need nothing in front.
  lemma MinusBehind(before: char, c: char)
    requires c == '+' || c == '-'
    ensures LastSplit(Scan(None, 0, before), [c], ['+', '-']) == Some(0) <==>
            || c == '+'
            || '0' <= before <= '9' || 'a' <= before <= 'z' || 'A' <= before <= 'Z' || before in "_)]\"'"
  {
    assert [c][1..] == "";
  }

  lemma SplitsNowhere(name: string, o: char, inner: string, c: char, ops: seq<char>)
    requires (forall x :: x in name ==> 'a' <= x <= 'z') && Flat(inner) && Bracketing(o, c)
    requires ops == ['+', '-'] || ops == ['*', '/']
    ensures LastSplit(START, name + [o] + inner + [c], ops).None?
  {
    InertScans(START, name, ops);
    var open := Step(After(START, name), o);
    FlatScans(open, inner, ops);
    var last := After(open, inner);
    assert LastSplit(last, [c], ops).None?;
    SplitBoth(open, inner, [c], ops);
    OneThenSplits(After(START, name), o, inner + [c], ops);
    SplitBoth(START, name, [o] + (inner + [c]), ops);
    assert name + [o] + inner + [c] == name + ([o] + (inner + [c]));
  }

  lemma OneThenSplits(st: Scan, c: char, rest: string, ops: seq<char>)
    requires LastSplit(Step(st, c), rest, ops).None? && c !in ops
    ensures LastSplit(st, [c] + rest, ops).None?
  {
    assert ([c] + rest)[1..] == rest;
  }

  lemma {:induction false} QuotedScans(st: Scan, s: string, ops: seq<char>)
    requires st.quote.Some? && st.quote.value !in s
    ensures LastSplit(st, s, ops).None? && After(st, s).quote == st.quote
    decreases |s|
  {
    if s != "" {
      assert s[0] in s && forall x :: x in s[1..] ==> x in s;
      QuotedScans(Step(st, s[0]), s[1..], ops);
    }
  }

  lemma QuotedNowhere(name: string, q: char, inner: string, ops: seq<char>)
    requires (forall x :: x in name ==> 'a' <= x <= 'z') && Flat(inner) && (q == '"' || q == '\'')
    requires ops == ['+', '-'] || ops == ['*', '/']
    ensures LastSplit(START, name + [q] + inner + [q], ops).None?
  {
    InertScans(START, name, ops);
    var open := Step(After(START, name), q);
    QuotedScans(open, inner, ops);
    SplitBoth(open, inner, [q], ops);
    OneThenSplits(After(START, name), q, inner + [q], ops);
    SplitBoth(START, name, [q] + (inner + [q]), ops);
    assert name + [q] + inner + [q] == name + ([q] + (inner + [q]));
  }

  // ----- Calls and keywords -----

  // A name of lower-case letters that is no keyword.
  predicate Name(s: string) {
    s != "" && (forall c :: c in s ==> 'a' <= c <= 'z') && s != "true" && s != "false" && s != "nil"
  }

  lemma NameSpellable(s: string)
    requires Name(s)
    ensures Spellable(s)
  {
    forall i | 0 <= i < |s| ensures 'a' <= s[i] <= 'z' {
      assert s[i] in s;
    }
    forall suffix: string ensures !EndsWith(s, "." + suffix) {
      NoDotEnds(s, suffix);
    }
    assert "." + "length" == ".length";
  }

  lemma NoDotEnds(s: string, suffix: string)
    requires forall i :: 0 <= i < |s| ==> 'a' <= s[i] <= 'z'
    ensures !EndsWith(s, "." + suffix)
  {
    var tail := "." + suffix;
    if |tail| <= |s| {
      assert s[|s| - |tail|..][0] == s[|s| - |tail|];
      assert tail[0] == '.';
    }
  }

  lemma CallParses(name: string, suffix: string)
    requires Name(name) && Suffixes(suffix)
    ensures Parse(name + "." + suffix) == Call(Path(name), suffix)
  {
    NameSpellable(name);
    var t := Call(Path(name), suffix);
    assert OneLine(Path(name)) && Printable(t);
    assert Operand(Path(name), 3, true) == name;
    assert Print(t, true) == name + "." + suffix;
    hide Parse;
    RoundTrip(t);
  }

  // The calls a name takes, each by its own word; and a name alone is a path.
  lemma CallsByName(name: string)
    requires Name(name)
    ensures Parse(name) == Path(name)
    ensures Parse(name + "." + "positive?") == Call(Path(name), "positive?")
    ensures Parse(name + "." + "negative?") == Call(Path(name), "negative?")
    ensures Parse(name + "." + "zero?") == Call(Path(name), "zero?")
    ensures Parse(name + "." + "empty?") == Call(Path(name), "empty?")
    ensures Parse(name + "." + "present?") == Call(Path(name), "present?")
    ensures Parse(name + "." + "blank?") == Call(Path(name), "blank?")
    ensures Parse(name + "." + "set?") == Call(Path(name), "set?")
    ensures Parse(name + "." + "unset?") == Call(Path(name), "unset?")
    ensures Parse(name + "." + "to_s") == Call(Path(name), "to_s")
    ensures Parse(name + "." + "size") == Call(Path(name), "size")
    ensures Parse(name + "." + "first") == Call(Path(name), "first")
    ensures Parse(name + "." + "last") == Call(Path(name), "last")
    ensures Parse(name + "." + "strip") == Call(Path(name), "strip")
    ensures Parse(name + "." + "lstrip") == Call(Path(name), "lstrip")
    ensures Parse(name + "." + "rstrip") == Call(Path(name), "rstrip")
  {
    hide Parse;
    NameSpellable(name);
    ParsePath(name);
    SuffixWords();
    CallParses(name, "positive?");
    CallParses(name, "negative?");
    CallParses(name, "zero?");
    CallParses(name, "empty?");
    CallParses(name, "present?");
    CallParses(name, "blank?");
    CallParses(name, "set?");
    CallParses(name, "unset?");
    CallParses(name, "to_s");
    CallParses(name, "size");
    CallParses(name, "first");
    CallParses(name, "last");
    CallParses(name, "strip");
    CallParses(name, "lstrip");
    CallParses(name, "rstrip");
  }

  // `length` is another word for `size`.
  lemma LengthIsSize(name: string)
    requires Name(name)
    ensures Parse(name + "." + "length") == Call(Path(name), "size")
  {
    var e := name + "." + "length";
    forall i | 0 <= i < |name| ensures 'a' <= name[i] <= 'z' {
      assert name[i] in name;
    }
    assert e[0] == name[0] && Last(e) == 'h';
    assert Strip(e) == e;
    assert e[|name|..] == "." + "length" && e[..|name|] == name;
    assert '\n' !in name;
    NameSpellable(name);
    ParsePath(name);
  }

  lemma SuffixWords()
    ensures Suffixes("positive?") && Suffixes("negative?") && Suffixes("zero?") && Suffixes("empty?")
    ensures Suffixes("present?") && Suffixes("blank?") && Suffixes("set?") && Suffixes("unset?") && Suffixes("to_s")
    ensures Suffixes("size") && Suffixes("first") && Suffixes("last") && Suffixes("strip") && Suffixes("lstrip")
            && Suffixes("rstrip")
  {
  }

  predicate Numeric(s: string) { forall c :: c in s ==> '0' <= c <= '9' }

  lemma PointBetween(whole: string, fraction: string, sign: string)
    requires Numeric(whole) && Numeric(fraction) && fraction != "" && (sign == "" || sign == "-")
    ensures IsDecimal(sign + (whole + "." + fraction))
  {
    var spelled := whole + "." + fraction;
    assert spelled[|whole|] == '.' && spelled[..|whole|] == whole && spelled[|whole| + 1..] == fraction;
    assert whole != "" ==> whole[0] in whole;
    assert spelled[0] == if whole == "" then '.' else whole[0];
    if sign == "" {
      assert sign + spelled == spelled;
    } else {
      assert (sign + spelled)[0] == '-' && (sign + spelled)[1..] == spelled;
    }
    assert Unsigned(sign + spelled) == spelled;
  }

  // A decimal needs digits behind its point and none before it; a sign may go in front.
  lemma DecimalsByDigits(whole: string, fraction: string)
    requires Numeric(whole) && Numeric(fraction) && fraction != ""
    ensures Parse(whole + "." + fraction) == Decimal(whole + "." + fraction)
    ensures Parse("-" + (whole + "." + fraction)) == Decimal("-" + (whole + "." + fraction))
  {
    hide Parse, IsDecimal, Numeric;
    var spelled := whole + "." + fraction;
    PointBetween(whole, fraction, "");
    PointBetween(whole, fraction, "-");
    assert "" + spelled == spelled;
    DecimalReads(spelled);
    DecimalReads("-" + spelled);
  }

  lemma DecimalReads(spelled: string)
    requires IsDecimal(spelled)
    ensures Parse(spelled) == Decimal(spelled)
  {
    hide Parse;
    LeafPrints(Decimal(spelled));
    PlainRoundTrip(Decimal(spelled));
  }

  // A digit more makes a number ten times as large and adds its own value.
  lemma NumbersInTens(s: string, d: char)
    requires Numeric(s) && s != "" && '0' <= d <= '9'
    ensures Parse([d]) == Whole(d as int - '0' as int)
    ensures Parse(s).Whole? && Parse(s + [d]) == Whole(10 * Parse(s).n + (d as int - '0' as int))
  {
    hide Parse;
    NumberParses(s);
    NumberParses([d]);
    NumberParses(s + [d]);
    assert [d][..0] == "" && [d][0] == d;
    assert (s + [d])[..|s|] == s && (s + [d])[|s|] == d;
  }

  lemma NumberParses(s: string)
    requires Numeric(s) && s != ""
    ensures Digits(s) && Parse(s) == Whole(NatOf(s))
  {
    hide Parse, IsDecimal;
    assert s[0] in s && s[|s| - 1] in s;
    assert Strip(s) == s && Unsigned(s) == s;
    assert ("." + "length")[6] == 'h';
    assert |s| >= 7 ==> s[|s| - 7..][6] == s[|s| - 1];
    LiteralParses(s);
  }

  lemma LiteralParses(s: string)
    requires Strip(s) == s && !EndsWith(s, "." + "length") && Literal(s).Some?
    ensures Parse(s) == Literal(s).value
  {
    hide Literal, LastSplit, Grouped, SuffixOf, EndsWith;
  }

  lemma KeywordsByName()
    ensures Parse("true") == Word("true") && Parse("false") == Word("false") && Parse("nil") == Word("nil")
  {
    LeafPrints(Word("true"));
    LeafPrints(Word("false"));
    LeafPrints(Word("nil"));
    hide Parse;
    PlainRoundTrip(Word("true"));
    PlainRoundTrip(Word("false"));
    PlainRoundTrip(Word("nil"));
  }
}
