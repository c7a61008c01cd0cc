// What the canonical spelling keeps of an expression: read again, the text says the same tree, but for
// the paths whose `.length` it wrote `.size`.
module CanonicalMeaning {
  import opened Wrappers
  import opened ExpressionText
  import opened LiteralRuns
  import opened CanonicalForm

  // ----- The length rule, character by character -----

  // The rule as one pass over the text, each literal skipped.
  function SizesOut(text: string): string
    decreases |text|
  {
    if text == "" then ""
    else if Quote(text[0]) then
      var n := LiteralLength(text);
      text[..n] + SizesOut(text[n..])
    else if LengthHead(text) then ".size" + SizesOut(text[7..])
    else [text[0]] + SizesOut(text[1..])
  }

  // A word that ends at a run's end ends there in the text.
  lemma HeadInRun(run: string, rest: string)
    requires Code(run) && (rest == "" || Quote(rest[0]))
    ensures LengthHead(run) <==> LengthHead(run + rest)
    ensures LengthHead(run) ==> |run| >= 7
  {
    var text := run + rest;
    if |run| >= 7 {
      assert text[..7] == run[..7];
    } else if |text| >= 7 {
      assert text[..7][|run|] == text[|run|];
      assert !Quote(".length"[|run|]);
    }
  }

  lemma {:induction false} RunSizesOut(run: string, rest: string)
    requires (forall c :: c in run ==> !Quote(c)) && (rest == "" || Quote(rest[0]))
    ensures SizesOut(run + rest) == Sizes(run) + SizesOut(rest)
    decreases |run|
  {
    hide LengthHead;
    if run == "" {
      assert run + rest == rest;
    } else {
      HeadInRun(run, rest);
      assert run[0] in run;
      var n := if LengthHead(run) then 7 else 1;
      assert (run + rest)[n..] == run[n..] + rest;
      RunSizesOut(run[n..], rest);
    }
  }

  lemma {:induction false} SizesInOnePass(text: string)
    ensures MapOutside(text, Sizes) == SizesOut(text)
    decreases |text|
  {
    hide Sizes, LengthHead;
    if text == "" {
    } else if Quote(text[0]) {
      SizesInOnePass(text[LiteralLength(text)..]);
    } else {
      var n := CodeLength(text);
      SizesInOnePass(text[n..]);
      RunSizesOut(text[..n], text[n..]);
      assert text == text[..n] + text[n..];
    }
  }

  // ----- Texts the other rules leave alone -----

  predicate Behind(before: Option<char>) { before.Some? && WordChar(before.value) }

  // A space stands alone, and no bracket opens right behind a word.
  predicate Here(before: Option<char>, text: string)
    requires text != ""
  {
    && (Space(text[0]) ==> text[0] == ' ' && (|text| > 1 ==> !Space(text[1])))
    && (text[0] == '(' ==> !Behind(before))
  }

  predicate Calm(before: Option<char>, text: string)
    decreases |text|
  {
    if text == "" then true
    else if Quote(text[0]) then Calm(None, text[LiteralLength(text)..])
    else Here(before, text) && Calm(Some(text[0]), text[1..])
  }

  predicate CalmCode(run: string) { Collapsed(run) && NoCalls(run) }

  lemma {:induction false} CalmRun(before: Option<char>, run: string, rest: string)
    requires (forall c :: c in run ==> !Quote(c)) && (rest == "" || Quote(rest[0])) && Calm(before, run + rest)
    ensures Collapsed(run) && Calm(before, run) && Calm(None, rest)
    decreases |run|
  {
    if run == "" {
      assert run + rest == rest;
    } else {
      assert run[0] in run && (run + rest)[1..] == run[1..] + rest;
      CalmRun(Some(run[0]), run[1..], rest);
      CollapsedFrom(run[0], run[1..]);
      assert run == [run[0]] + run[1..];
    }
  }

  // A call's bracket opens right behind its name.
  lemma {:induction false} CalmIsNoCall(before: Option<char>, run: string, token: string)
    requires (forall c :: c in run ==> !Quote(c)) && Calm(before, run)
    requires token != "" && forall c :: c in token ==> WordChar(c)
    ensures NoCall(before, run, token)
    decreases |run|
  {
    if run != "" {
      CalmIsNoCall(Some(run[0]), run[1..], token);
      if |token| < |run| {
        CalmAt(before, run, |token|);
        assert run[..|token|][|token| - 1] == run[|token| - 1];
        assert WordChar(token[|token| - 1]);
      }
    }
  }

  lemma {:induction false} CalmAt(before: Option<char>, run: string, k: nat)
    requires (forall c :: c in run ==> !Quote(c)) && Calm(before, run) && 0 < k < |run|
    ensures run[k] == '(' ==> !WordChar(run[k - 1])
    decreases k
  {
    assert run[0] in run && run[1] in run;
    if k > 1 {
      CalmAt(Some(run[0]), run[1..], k - 1);
    }
  }

  lemma TokensAreWords()
    ensures forall c :: c in "days" ==> WordChar(c)
    ensures forall c :: c in "hours" ==> WordChar(c)
    ensures forall c :: c in "minutes" ==> WordChar(c)
  {
  }

  lemma {:induction false} CalmRuns(before: Option<char>, text: string)
    requires Calm(before, text) && (text != "" && !Quote(text[0]) ==> before == None)
    ensures AllCode(text, CalmCode)
    decreases |text|
  {
    hide Calm, Collapsed, NoCall;
    if text == "" {
    } else if Quote(text[0]) {
      var rest := text[LiteralLength(text)..];
      assert Calm(None, rest) by { CalmPastLiteral(before, text); }
      CalmRuns(None, rest);
    } else {
      var n := CodeLength(text);
      var run, rest := text[..n], text[n..];
      assert text == run + rest;
      CalmRun(None, run, rest);
      TokensAreWords();
      CalmIsNoCall(None, run, "days");
      CalmIsNoCall(None, run, "hours");
      CalmIsNoCall(None, run, "minutes");
      CalmRuns(None, rest);
    }
  }

  lemma CalmPastLiteral(before: Option<char>, text: string)
    requires text != "" && Quote(text[0]) && Calm(before, text)
    ensures Calm(None, text[LiteralLength(text)..])
  {
  }

  // The whitespace and the duration rules leave a calm text as it is.
  lemma CalmStays(text: string)
    requires Calm(None, text)
    ensures MapOutside(text, Collapse) == text && MapOutside(text, Days) == text
    ensures MapOutside(text, Hours) == text && MapOutside(text, Minutes) == text
  {
    hide Calm, MapOutside, AllCode, Collapse, Scale, Collapsed, NoCall;
    CalmRuns(None, text);
    forall s | CalmCode(s) ensures Collapse(s) == s && Days(s) == s && Hours(s) == s && Minutes(s) == s {
      CollapsedStays(s);
      NoCallStays(None, s, "days", 86400);
      NoCallStays(None, s, "hours", 3600);
      NoCallStays(None, s, "minutes", 60);
    }
    MappedStays(text, Collapse, CalmCode);
    MappedStays(text, Days, CalmCode);
    MappedStays(text, Hours, CalmCode);
    MappedStays(text, Minutes, CalmCode);
  }

  // ----- The length rule over a printed text -----

  // What comes after an operand: nothing, a space, a closing bracket or the dot of a suffix.
  predicate Follows(rest: string) { rest == "" || rest[0] == ' ' || rest[0] == ')' || rest[0] == '.' }

  // The rule writes `q` for `p`, whatever comes after an operand.
  ghost predicate Sizing(p: string, q: string) {
    forall rest :: Follows(rest) ==> SizesOut(p + rest) == q + SizesOut(rest)
  }

  // The rule leaves `p` alone, whatever comes after it.
  ghost predicate Passed(p: string) {
    forall rest :: SizesOut(p + rest) == p + SizesOut(rest)
  }

  lemma {:induction false} DotlessOut(p: string, rest: string)
    requires forall c :: c in p ==> c != '.' && !Quote(c)
    ensures SizesOut(p + rest) == p + SizesOut(rest)
    decreases |p|
  {
    if p == "" {
      assert p + rest == rest;
    } else {
      var text := p + rest;
      assert p[0] in p && text[1..] == p[1..] + rest;
      assert forall c :: c in p[1..] ==> c in p;
      DotlessOut(p[1..], rest);
      assert |text| >= 7 ==> text[..7][0] == text[0];
    }
  }

  lemma DotlessPassed(p: string)
    requires forall c :: c in p ==> c != '.' && !Quote(c)
    ensures Passed(p)
  {
    forall rest ensures SizesOut(p + rest) == p + SizesOut(rest) { DotlessOut(p, rest); }
  }

  lemma PassedBoth(a: string, b: string)
    requires Passed(a) && Passed(b)
    ensures Passed(a + b)
  {
    forall rest ensures SizesOut(a + b + rest) == a + b + SizesOut(rest) {
      assert a + b + rest == a + (b + rest);
    }
  }

  lemma PassedSizing(a: string, b: string, q: string)
    requires Passed(a) && Sizing(b, q)
    ensures Sizing(a + b, a + q)
  {
    hide SizesOut;
    forall rest | Follows(rest) ensures SizesOut(a + b + rest) == a + q + SizesOut(rest) {
      assert a + b + rest == a + (b + rest);
    }
  }

  lemma PassedAlone(p: string)
    requires Passed(p)
    ensures Sizing(p, p)
  {
  }

  lemma SizingBoth(a: string, qa: string, b: string, qb: string)
    requires Sizing(a, qa) && Sizing(b, qb) && b != "" && Follows(b)
    ensures Sizing(a + b, qa + qb)
  {
    hide SizesOut;
    forall rest | Follows(rest) ensures SizesOut(a + b + rest) == qa + qb + SizesOut(rest) {
      assert a + b + rest == a + (b + rest);
      assert Follows(b + rest);
    }
  }

  // A dot not before an `l` and an `e` begins no `.length`.
  lemma DotPassed(p: string)
    requires p != "" && (p[0] != 'l' || (|p| > 1 && p[1] != 'e'))
    requires forall c :: c in p ==> c != '.' && !Quote(c)
    ensures Passed("." + p)
  {
    forall rest ensures SizesOut("." + p + rest) == "." + p + SizesOut(rest) {
      var text := "." + p + rest;
      assert text[1..] == p + rest;
      if |text| >= 7 {
        assert text[..7][1] == p[0];
        assert |p| > 1 ==> text[..7][2] == p[1];
        assert ".length"[1] == 'l' && ".length"[2] == 'e';
      }
      assert !LengthHead(text);
      DotlessOut(p, rest);
    }
  }

  lemma SuffixPassed(suffix: string)
    requires Suffixes(suffix)
    ensures Passed("." + suffix)
  {
    SuffixSpelling(suffix);
    assert forall c :: c in suffix ==> Inert(c);
    assert suffix[0] != 'l' || (|suffix| > 1 && suffix[1] != 'e') by { SuffixStarts(suffix); }
    DotPassed(suffix);
  }

  lemma SuffixStarts(suffix: string)
    requires Suffixes(suffix)
    ensures suffix != "" && (suffix[0] != 'l' || (|suffix| > 1 && suffix[1] != 'e'))
  {
  }

  lemma NumberPassed(whole: string, digits: string)
    requires Digits(whole) && Digits(digits) && digits != ""
    ensures Passed(whole + ("." + digits))
  {
    assert Digit(digits[0]) && forall c :: c in digits ==> Digit(c);
    DotPassed(digits);
    DotlessPassed(whole);
    PassedBoth(whole, "." + digits);
  }

  lemma DecimalPassed(e: string)
    requires IsDecimal(e)
    ensures Passed(e)
  {
    hide Passed, Digits;
    var u := Unsigned(e);
    var k :| 0 <= k < |u| - 1 && u[k] == '.' && Digits(u[..k]) && Digits(u[k + 1..]);
    NumberPassed(u[..k], u[k + 1..]);
    assert u == u[..k] + ("." + u[k + 1..]);
    if e[0] == '-' {
      DotlessPassed("-");
      PassedBoth("-", u);
      assert e == "-" + u;
    }
  }

  lemma QuotedPassed(s: string)
    requires '"' !in s
    ensures Passed("\"" + s + "\"")
  {
    var p := "\"" + s + "\"";
    forall rest ensures SizesOut(p + rest) == p + SizesOut(rest) {
      QuotedLength(s, rest);
      assert (p + rest)[..|p|] == p && (p + rest)[|p|..] == rest;
    }
  }

  lemma QuotedLength(s: string, rest: string)
    requires '"' !in s
    ensures var text := "\"" + s + "\"" + rest; LiteralLength(text) == |s| + 2
  {
    var text := "\"" + s + "\"" + rest;
    assert text[1..] == s + ("\"" + rest);
    ClosesPast(s, "\"" + rest);
  }

  lemma {:induction false} ClosesPast(s: string, rest: string)
    requires '"' !in s && rest != "" && rest[0] == '"'
    ensures ClosesAt(s + rest, '"') == Some(|s|)
  {
    if s == "" {
      assert s + rest == rest;
    } else {
      assert s[0] in s && (s + rest)[1..] == s[1..] + rest;
      ClosesPast(s[1..], rest);
    }
  }

  // ----- Paths -----

  lemma TailEnds(r: string, n: nat, tail: string)
    requires n <= |r|
    ensures EndsWith(r[n..], tail) ==> EndsWith(r, tail)
  {
    if EndsWith(r[n..], tail) {
      assert r[n..][|r| - n - |tail|..] == r[|r| - |tail|..];
    }
  }

  lemma {:induction false} PathOut(r: string, rest: string)
    requires (forall c :: c in r ==> PathChar(c)) && Follows(rest) && !EndsWith(r, ".length")
    ensures SizesOut(r + rest) == Sizes(r) + SizesOut(rest)
    decreases |r|
  {
    hide EndsWith, LengthHead;
    if r == "" {
      assert r + rest == rest;
    } else {
      PathHead(r, rest);
      assert r[0] in r;
      var n := if LengthHead(r) then 7 else 1;
      assert (r + rest)[n..] == r[n..] + rest;
      TailEnds(r, n, ".length");
      PathOut(r[n..], rest);
    }
  }

  lemma PathHead(r: string, rest: string)
    requires r != "" && Follows(rest) && !EndsWith(r, ".length")
    ensures LengthHead(r + rest) <==> LengthHead(r)
    ensures LengthHead(r) ==> |r| >= 7
  {
    var text := r + rest;
    if |r| >= 7 {
      assert text[..7] == r[..7];
      assert |r| == 7 ==> r[0..] == r && r[..7] == r;
    } else if |text| >= 7 {
      assert text[..7][|r|] == rest[0];
      assert forall i :: 1 <= i < 7 ==> 'a' <= ".length"[i] <= 'z';
    }
  }

  lemma PathSizing(p: string)
    requires Spellable(p)
    ensures Sizing(p, Sizes(p))
  {
    forall rest | Follows(rest) ensures SizesOut(p + rest) == Sizes(p) + SizesOut(rest) {
      PathOut(p, rest);
    }
  }

  lemma {:induction false} SizesPathChars(r: string)
    requires forall c :: c in r ==> PathChar(c)
    ensures forall c :: c in Sizes(r) ==> PathChar(c)
    decreases |r|
  {
    if r != "" {
      assert r[0] in r;
      SizesPathChars(if LengthHead(r) then r[7..] else r[1..]);
      assert forall c :: c in ".size" ==> PathChar(c);
    }
  }

  // A tail with one dot, its first character, ends what comes last or reaches past it.
  lemma EndsOver(head: string, out: string, part: string)
    requires '.' !in part && EndsWith(head + out, "." + part)
    ensures EndsWith(out, "." + part) || ('.' !in out && |out| <= |part| && part[|part| - |out|..] == out)
  {
    var s, tail := head + out, "." + part;
    if |tail| <= |out| {
      assert s[|s| - |tail|..] == out[|out| - |tail|..];
    } else {
      assert s[|s| - |tail|..][|tail| - |out|..] == out;
      assert tail[|tail| - |out|..] == part[|part| - |out|..];
    }
  }

  // A last part without a dot is there before the rule, as long as the rule has nothing to do at the end.
  lemma {:induction false} SizesEnds(r: string, part: string)
    requires '.' !in part && part != "" && !EndsWith(r, ".length") && forall c :: c in r ==> PathChar(c)
    requires EndsWith(Sizes(r), "." + part)
    ensures EndsWith(r, "." + part)
    decreases |r|
  {
    hide EndsWith;
    if r == "" {
      NothingEnds("." + part);
    } else {
      var n := if LengthHead(r) then 7 else 1;
      TailEnds(r, n, ".length");
      TailEnds(r, n, "." + part);
      EndsOver(if LengthHead(r) then ".size" else [r[0]], Sizes(r[n..]), part);
      if EndsWith(Sizes(r[n..]), "." + part) {
        SizesEnds(r[n..], part);
      } else if LengthHead(r) {
        DotAfterLength(r);
        SizesFirst(r[7..]);
      } else {
        FirstEnds(r, part);
      }
    }
  }

  lemma NothingEnds(tail: string)
    requires tail != ""
    ensures !EndsWith("", tail)
  {
  }

  lemma FirstEnds(r: string, part: string)
    requires r != "" && !LengthHead(r) && '.' !in part && EndsWith(Sizes(r), "." + part)
    requires |Sizes(r[1..])| <= |part| && '.' !in Sizes(r[1..])
    ensures EndsWith(r, "." + part)
  {
    assert Sizes(r) == "." + part;
    assert Sizes(r[1..]) == Sizes(r)[1..] == part;
    OnlyItself(r[1..], part);
    assert r[0] == Sizes(r)[0] == '.';
    assert r == [r[0]] + r[1..];
  }

  lemma LengthEnds(r: string)
    requires |r| == 7 && r[..7] == ".length"
    ensures EndsWith(r, ".length")
  {
    assert r[0..] == r[..7];
  }

  lemma DotAfterLength(r: string)
    requires LengthHead(r) && !EndsWith(r, ".length") && forall c :: c in r ==> PathChar(c)
    ensures |r| > 7 && r[7] == '.'
  {
    if |r| == 7 {
      LengthEnds(r);
    } else {
      assert r[7] in r;
    }
  }

  lemma OnlyItself(r: string, word: string)
    requires Sizes(r) == word && '.' !in word
    ensures r == word
  {
    assert Sizes(r)[..|word|] == word;
    SizesPrefix(r, word);
    assert Sizes(r[|word|..]) == "";
    if r[|word|..] != "" {
      SizesFirst(r[|word|..]);
    }
  }

  lemma {:induction false} SizesLast(r: string)
    requires r != "" && !EndsWith(r, ".length") && forall c :: c in r ==> PathChar(c)
    ensures Sizes(r) != "" && Last(Sizes(r)) == Last(r)
    decreases |r|
  {
    var n := if LengthHead(r) then 7 else 1;
    TailEnds(r, n, ".length");
    if LengthHead(r) {
      DotAfterLength(r);
    }
    if r[n..] != "" {
      SizesLast(r[n..]);
    }
  }

  lemma SizesSpellable(p: string)
    requires Spellable(p)
    ensures Spellable(Sizes(p)) && Sizes(p)[0] == p[0] && Last(Sizes(p)) == Last(p)
  {
    hide EndsWith, Sizes;
    SizesFirst(p);
    SizesLast(p);
    SizesPathChars(p);
    forall s | s in SIGN_TESTS + RECEIVER_SUFFIXES ensures !EndsWith(Sizes(p), "." + s) {
      SuffixSpelling(s);
      if EndsWith(Sizes(p), "." + s) {
        SizesEnds(p, s);
      }
    }
    assert "." + "length" == ".length" && '.' !in "length";
    if EndsWith(Sizes(p), ".length") {
      SizesEnds(p, "length");
    }
    if Sizes(p) in KEYWORDS {
      KeywordSpelling(Sizes(p));
      OnlyItself(p, Sizes(p));
    }
  }

  // ----- The tree the rule leaves -----

  // Every `.length` of a path at a word's end written `.size`.
  function Renamed(t: Tree): Tree {
    match t
    case Path(path) => Path(Sizes(path))
    case Call(receiver, suffix) => Call(Renamed(receiver), suffix)
    case Infix(op, left, right) => Infix(op, Renamed(left), Renamed(right))
    case _ => t
  }

  lemma {:induction false} RenamedPrintable(t: Tree)
    requires Printable(t)
    ensures Printable(Renamed(t)) && Level(Renamed(t)) == Level(t) && (OneLine(t) ==> OneLine(Renamed(t)))
  {
    hide Spellable, IsDecimal;
    match t {
      case Path(path) => SizesSpellable(path);
      case Call(receiver, _) => RenamedPrintable(receiver);
      case Infix(_, left, right) =>
        RenamedPrintable(left);
        RenamedPrintable(right);
      case _ =>
    }
  }

  // The text of one tree is the other's with the rule run over it, its ends the same.
  ghost predicate Rewrites(p: string, q: string) {
    p != "" && q != "" && Sizing(p, q) && p[0] == q[0] && Last(p) == Last(q)
  }

  lemma ParensRewrite(p: string, q: string)
    requires Rewrites(p, q)
    ensures Rewrites(InParens(p), InParens(q))
  {
    hide Sizing;
    DotlessPassed("(");
    DotlessPassed(")");
    PassedAlone(")");
    SizingBoth(p, q, ")", ")");
    PassedSizing("(", p + ")", q + ")");
    assert InParens(p) == "(" + (p + ")") && InParens(q) == "(" + (q + ")");
  }

  lemma SuffixRewrites(p: string, q: string, suffix: string)
    requires Rewrites(p, q) && Suffixes(suffix)
    ensures Rewrites(p + "." + suffix, q + "." + suffix)
  {
    hide Sizing, Suffixes;
    SuffixPassed(suffix);
    PassedAlone("." + suffix);
    SizingBoth(p, q, "." + suffix, "." + suffix);
    SuffixSpelling(suffix);
    assert p + "." + suffix == p + ("." + suffix) && q + "." + suffix == q + ("." + suffix);
  }

  lemma JoinedRewrites(l: string, ql: string, op: char, r: string, qr: string)
    requires Rewrites(l, ql) && Rewrites(r, qr) && Operator(op)
    ensures Rewrites(Joined(l, op, r), Joined(ql, op, qr))
  {
    hide Sizing;
    DotlessPassed(Spaced(op));
    PassedSizing(Spaced(op), r, qr);
    SizingBoth(l, ql, Spaced(op) + r, Spaced(op) + qr);
    assert Joined(l, op, r) == l + (Spaced(op) + r) && Joined(ql, op, qr) == ql + (Spaced(op) + qr);
  }

  lemma LeafRewrites(t: Tree, careful: bool)
    requires Printable(t) && !t.Call? && !t.Infix? && Printable(Renamed(t))
    ensures Rewrites(Print(t, careful), Print(Renamed(t), careful))
  {
    hide Sizing, Passed, Spellable, IsDecimal;
    match t {
      case Path(path) =>
        PathSizing(path);
        SizesSpellable(path);
        PathEnds(path);
        PathEnds(Sizes(path));
      case Whole(n) =>
        NumeralSpelling(n);
        assert forall c :: c in Signed(n) ==> c == '-' || c in Unsigned(Signed(n));
        DotlessPassed(Signed(n));
        PassedAlone(Signed(n));
      case Decimal(spelled) =>
        DecimalSpelling(spelled);
        DecimalPassed(spelled);
        PassedAlone(spelled);
      case Text(s) =>
        QuotedPassed(s);
        PassedAlone(Print(t, careful));
      case Word(word) =>
        KeywordSpelling(word);
        DotlessPassed(word);
        PassedAlone(word);
    }
  }

  lemma OperandRewrites(t: Tree, level: nat, careful: bool)
    requires Printable(t) && Printable(Renamed(t)) && Level(Renamed(t)) == Level(t)
    requires Rewrites(Print(t, careful), Print(Renamed(t), careful))
    ensures Rewrites(Operand(t, level, careful), Operand(Renamed(t), level, careful))
  {
    ParensRewrite(Print(t, careful), Print(Renamed(t), careful));
  }

  lemma {:induction false} PrintRewrites(t: Tree, careful: bool)
    requires Printable(t)
    ensures Printable(Renamed(t)) && Rewrites(Print(t, careful), Print(Renamed(t), careful))
  {
    hide Rewrites;
    RenamedPrintable(t);
    match t {
      case Call(receiver, suffix) =>
        PrintRewrites(receiver, careful);
        RenamedPrintable(receiver);
        OperandRewrites(receiver, 3, careful);
        SuffixRewrites(Operand(receiver, 3, careful), Operand(Renamed(receiver), 3, careful), suffix);
      case Infix(op, left, right) =>
        PrintRewrites(left, careful);
        PrintRewrites(right, careful);
        InfixRewrites(t, careful);
      case _ => LeafRewrites(t, careful);
    }
  }

  lemma LeftRewrites(t: Tree, careful: bool)
    requires Printable(t) && t.Infix? && Printable(Renamed(t)) && Level(Renamed(t.left)) == Level(t.left)
    requires Rewrites(Print(t.left, careful), Print(Renamed(t.left), careful))
    requires Rewrites(Operand(t.right, Level(t) + 1, careful), Operand(Renamed(t.right), Level(t) + 1, careful))
    ensures Rewrites(LeftText(t, careful), LeftText(Renamed(t), careful))
  {
    hide Print, Sizing, Operand;
    OperandRewrites(t.left, Level(t), careful);
    ParensRewrite(Print(t.left, careful), Print(Renamed(t.left), careful));
  }

  lemma InfixRewrites(t: Tree, careful: bool)
    requires Printable(t) && t.Infix? && Printable(Renamed(t))
    requires Rewrites(Print(t.left, careful), Print(Renamed(t.left), careful))
    requires Rewrites(Print(t.right, careful), Print(Renamed(t.right), careful))
    ensures Rewrites(Print(t, careful), Print(Renamed(t), careful))
  {
    hide Rewrites, LeftText, Operand, Print;
    var u := Renamed(t);
    RenamedPrintable(t.left);
    RenamedPrintable(t.right);
    OperandRewrites(t.right, Level(t) + 1, careful);
    LeftRewrites(t, careful);
    JoinedRewrites(LeftText(t, careful), LeftText(u, careful), t.op,
                   Operand(t.right, Level(t) + 1, careful), Operand(u.right, Level(t) + 1, careful));
    InfixJoined(t, careful);
    InfixJoined(u, careful);
  }

  lemma InfixJoined(t: Tree, careful: bool)
    requires Printable(t) && t.Infix?
    ensures Print(t, careful) == Joined(LeftText(t, careful), t.op, Operand(t.right, Level(t) + 1, careful))
  {
  }

  // ----- Printed texts are calm -----

  // Neither space, nor quote, nor opening bracket.
  predicate Tame(c: char) { !Space(c) && c != '(' && !Quote(c) }

  // Not behind a word, a calm text, whatever calm text comes after an operand.
  ghost predicate Calms(p: string) {
    forall before: Option<char>, rest: string :: !Behind(before) && Follows(rest) && Calm(None, rest) ==>
        Calm(before, p + rest)
  }

  lemma UseCalms(p: string, before: Option<char>, rest: string)
    requires Calms(p) && !Behind(before) && Follows(rest) && Calm(None, rest)
    ensures Calm(before, p + rest)
  {
  }

  lemma CalmWhatever(before: Option<char>, rest: string)
    requires Follows(rest)
    ensures Calm(before, rest) == Calm(None, rest)
  {
  }

  lemma {:induction false} TameCalm(before: Option<char>, p: string, rest: string)
    requires (forall c :: c in p ==> Tame(c)) && Follows(rest) && Calm(None, rest)
    ensures Calm(before, p + rest)
    decreases |p|
  {
    if p == "" {
      assert p + rest == rest;
      CalmWhatever(before, rest);
    } else {
      assert p[0] in p && (p + rest)[1..] == p[1..] + rest && forall c :: c in p[1..] ==> c in p;
      TameCalm(Some(p[0]), p[1..], rest);
    }
  }

  lemma TameCalms(p: string)
    requires forall c :: c in p ==> Tame(c)
    ensures Calms(p)
  {
    forall before: Option<char>, rest: string | !Behind(before) && Follows(rest) && Calm(None, rest)
      ensures Calm(before, p + rest)
    {
      TameCalm(before, p, rest);
    }
  }

  lemma QuotedCalms(s: string)
    requires '"' !in s
    ensures Calms("\"" + s + "\"")
  {
    var p := "\"" + s + "\"";
    forall before: Option<char>, rest: string | !Behind(before) && Follows(rest) && Calm(None, rest)
      ensures Calm(before, p + rest)
    {
      QuotedLength(s, rest);
      assert (p + rest)[|p|..] == rest;
    }
  }

  lemma OpensCalm(before: Option<char>, text: string)
    requires !Behind(before) && Calm(Some('('), text)
    ensures Calm(before, "(" + text)
  {
    assert ("(" + text)[1..] == text;
  }

  lemma ClosesCalm(rest: string)
    requires Follows(rest) && Calm(None, rest)
    ensures Calm(None, ")" + rest) && Follows(")" + rest)
  {
    assert (")" + rest)[1..] == rest;
    CalmWhatever(Some(')'), rest);
  }

  lemma ParensCalm(p: string)
    requires Calms(p)
    ensures Calms(InParens(p))
  {
    hide Calm;
    forall before: Option<char>, rest: string | !Behind(before) && Follows(rest) && Calm(None, rest)
      ensures Calm(before, InParens(p) + rest)
    {
      assert InParens(p) + rest == "(" + (p + (")" + rest));
      ClosesCalm(rest);
      UseCalms(p, Some('('), ")" + rest);
      OpensCalm(before, p + (")" + rest));
    }
  }

  lemma SuffixCalms(p: string, suffix: string)
    requires Calms(p) && Suffixes(suffix)
    ensures Calms(p + "." + suffix)
  {
    hide Calm, Suffixes;
    SuffixSpelling(suffix);
    var tail := "." + suffix;
    forall before: Option<char>, rest: string | !Behind(before) && Follows(rest) && Calm(None, rest)
      ensures Calm(before, p + "." + suffix + rest)
    {
      assert p + "." + suffix + rest == p + (tail + rest);
      TameCalm(None, tail, rest);
      UseCalms(p, before, tail + rest);
    }
  }

  lemma SpacedCalm(op: char, text: string)
    requires Operator(op) && text != "" && !Space(text[0]) && Calm(Some(' '), text)
    ensures Calm(None, Spaced(op) + text)
  {
    var all := Spaced(op) + text;
    assert all[1..] == [op, ' '] + text && all[1..][1..] == [' '] + text && all[1..][1..][1..] == text;
  }

  lemma JoinedCalms(l: string, op: char, r: string)
    requires Calms(l) && Calms(r) && Operator(op) && r != "" && !Space(r[0])
    ensures Calms(Joined(l, op, r))
  {
    hide Calm;
    forall before: Option<char>, rest: string | !Behind(before) && Follows(rest) && Calm(None, rest)
      ensures Calm(before, Joined(l, op, r) + rest)
    {
      UseCalms(r, Some(' '), rest);
      SpacedCalm(op, r + rest);
      UseCalms(l, before, Spaced(op) + (r + rest));
      assert Joined(l, op, r) + rest == l + (Spaced(op) + (r + rest));
    }
  }

  lemma LeafCalms(t: Tree, careful: bool)
    requires Printable(t) && !t.Call? && !t.Infix?
    ensures Calms(Print(t, careful))
  {
    hide Calms, Spellable, IsDecimal;
    match t {
      case Path(path) =>
        assert forall c :: c in path ==> PathChar(c) by { PathIsChars(path); }
        TameCalms(path);
      case Whole(n) =>
        NumeralSpelling(n);
        assert forall c :: c in Signed(n) ==> c == '-' || c in Unsigned(Signed(n));
        TameCalms(Signed(n));
      case Decimal(spelled) =>
        DecimalSpelling(spelled);
        assert forall c :: c in spelled ==> c == '-' || c in Unsigned(spelled);
        TameCalms(spelled);
      case Text(s) => QuotedCalms(s);
      case Word(word) =>
        KeywordSpelling(word);
        TameCalms(word);
    }
  }

  lemma PathIsChars(path: string)
    requires Spellable(path)
    ensures forall c :: c in path ==> PathChar(c)
  {
  }

  lemma {:induction false} PrintCalms(t: Tree, careful: bool)
    requires Printable(t)
    ensures Calms(Print(t, careful))
  {
    hide Calms, Reads;
    match t {
      case Call(receiver, suffix) =>
        PrintCalms(receiver, careful);
        ParensCalm(Print(receiver, careful));
        SuffixCalms(Operand(receiver, 3, careful), suffix);
      case Infix(op, left, right) =>
        PrintCalms(left, careful);
        PrintCalms(right, careful);
        ParensCalm(Print(left, careful));
        ParensCalm(Print(right, careful));
        LeftIs(t, careful);
        OperandStarts(right, Level(t) + 1, careful);
        JoinedCalms(LeftText(t, careful), op, Operand(right, Level(t) + 1, careful));
      case _ => LeafCalms(t, careful);
    }
  }

  lemma OperandStarts(t: Tree, level: nat, careful: bool)
    requires Printable(t)
    ensures !Space(Operand(t, level, careful)[0])
  {
    PrintReads(t, careful);
  }

  lemma PrintedIsCalm(t: Tree, careful: bool)
    requires Printable(t)
    ensures Calm(None, Print(t, careful))
  {
    PrintCalms(t, careful);
    UseCalms(Print(t, careful), None, "");
    assert Print(t, careful) + "" == Print(t, careful);
  }

  // ----- What is read again -----

  // The canonical spelling of a printed tree is the print of the tree with its lengths renamed.
  lemma CanonicalIsPrinted(t: Tree, careful: bool)
    requires Printable(t)
    ensures Printable(Renamed(t)) && Apply(Print(t, careful)) == Print(Renamed(t), careful)
  {
    hide Calm, Reads, MapOutside, Print, Strip, Sizes, Collapse, Scale, Printable, Days, Hours, Minutes;
    RenamedPrintable(t);
    var p, q := Print(t, careful), Print(Renamed(t), careful);
    PrintedIsCalm(t, careful);
    CalmStays(p);
    SizesInOnePass(p);
    assert SizesOut(p) == q by { WholeSized(t, careful); }
    PrintedIsCalm(Renamed(t), careful);
    CalmStays(q);
    assert Strip(q) == q by { PrintStrips(Renamed(t), careful); }
  }

  lemma WholeSized(t: Tree, careful: bool)
    requires Printable(t) && Printable(Renamed(t))
    ensures SizesOut(Print(t, careful)) == Print(Renamed(t), careful)
  {
    PrintRewrites(t, careful);
    var p, q := Print(t, careful), Print(Renamed(t), careful);
    assert SizesOut(p + "") == q + SizesOut("");
    assert p + "" == p && q + "" == q;
  }

  lemma PrintStrips(t: Tree, careful: bool)
    requires Printable(t)
    ensures Strip(Print(t, careful)) == Print(t, careful)
  {
    PrintReads(t, careful);
  }

  // A `.length` with a dot right behind it.
  predicate LengthAt(path: string, i: nat) { i + 8 <= |path| && path[i..i + 8] == ".length." }

  predicate LengthInside(path: string) { exists i: nat :: i < |path| && LengthAt(path, i) }

  predicate NoLengthInside(t: Tree) {
    match t
    case Path(path) => !LengthInside(path)
    case Call(receiver, _) => NoLengthInside(receiver)
    case Infix(_, left, right) => NoLengthInside(left) && NoLengthInside(right)
    case _ => true
  }

  lemma {:induction false} SizesShorter(r: string)
    ensures |Sizes(r)| <= |r| && (Sizes(r) == r <==> CanonicalForm.NoLength(r))
    decreases |r|
  {
    if CanonicalForm.NoLength(r) {
      NoLengthStays(r);
    }
    if r != "" {
      SizesShorter(if LengthHead(r) then r[7..] else r[1..]);
      if !LengthHead(r) {
        assert Sizes(r)[1..] == Sizes(r[1..]);
        assert r == [r[0]] + r[1..];
      }
    }
  }

  lemma {:induction false} LengthIsInside(r: string)
    requires (forall c :: c in r ==> PathChar(c)) && !EndsWith(r, ".length")
    ensures CanonicalForm.NoLength(r) <==> !LengthInside(r)
    decreases |r|
  {
    if r != "" {
      TailEnds(r, 1, ".length");
      LengthIsInside(r[1..]);
      HeadIsInside(r);
      forall i: nat ensures LengthAt(r[1..], i) <==> LengthAt(r, i + 1) {
        if i + 9 <= |r| {
          assert r[1..][i..i + 8] == r[i + 1..i + 9];
        }
      }
      if i: nat :| i < |r| && LengthAt(r, i) && i > 0 {
        assert LengthAt(r[1..], i - 1);
      }
      if i: nat :| i < |r[1..]| && LengthAt(r[1..], i) {
        assert LengthAt(r, i + 1);
      }
    }
  }

  lemma HeadIsInside(r: string)
    requires (forall c :: c in r ==> PathChar(c)) && !EndsWith(r, ".length")
    ensures LengthHead(r) <==> LengthAt(r, 0)
  {
    if LengthHead(r) {
      DotAfterLength(r);
      assert r[..8] == r[..7] + [r[7]];
    }
    if LengthAt(r, 0) {
      assert r[..7] == r[..8][..7];
      assert r[7] == r[..8][7];
    }
  }

  lemma {:induction false} RenamedIsSame(t: Tree)
    requires Printable(t)
    ensures Renamed(t) == t <==> NoLengthInside(t)
  {
    match t {
      case Path(path) =>
        SizesShorter(path);
        LengthIsInside(path);
      case Call(receiver, _) => RenamedIsSame(receiver);
      case Infix(_, left, right) =>
        RenamedIsSame(left);
        RenamedIsSame(right);
      case _ =>
    }
  }

  // Brought to its canonical spelling and read again, a printed tree is the tree with its lengths
  // renamed: the same tree exactly when none of its paths has a `.length` with a dot right behind it.
  lemma MeaningIsKept(t: Tree)
    requires Printable(t)
    ensures Parse(Apply(Print(t, true))) == Renamed(t)
    ensures Parse(Apply(Print(t, true))) == t <==> NoLengthInside(t)
  {
    hide Parse, Apply, Print;
    CanonicalIsPrinted(t, true);
    RoundTrip(Renamed(t));
    RenamedIsSame(t);
  }

  // A member called `length` on the way to another is looked up as `size`.
  lemma LengthOnTheWay()
    ensures Spellable("a.length.b") && Apply("a.length.b") == "a.size.b"
    ensures Parse("a.length.b") == Path("a.length.b") && Parse(Apply("a.length.b")) == Path("a.size.b")
  {
    SpelledSoFar();
    SizedOnTheWay();
    hide Parse, Apply, Spellable, Sizes, Print;
    ParsePath("a.length.b");
    CanonicalIsPrinted(Path("a.length.b"), true);
    SizesSpellable("a.length.b");
    ParsePath("a.size.b");
    PathPrints("a.length.b");
    PathPrints("a.size.b");
  }

  lemma PathPrints(path: string)
    requires Spellable(path)
    ensures Print(Path(path), true) == path
  {
  }

  lemma SizedOnTheWay()
    ensures Sizes("a.length.b") == "a.size.b"
  {
    var path := "a.length.b";
    assert path[1..] == ".length.b" && path[1..][..7] == ".length" && path[1..][7..] == ".b";
    assert LengthHead(path[1..]) && !LengthHead(path) && !LengthHead(".b") && !LengthHead("b");
    assert ".b"[1..] == "b" && "b"[1..] == "";
  }

  lemma SuffixIsLast(p: string, s: string, other: string)
    requires '.' !in s && '.' !in other
    ensures EndsWith(p + "." + s, "." + other) ==> other == s
  {
    if EndsWith(p + "." + s, "." + other) {
      OneSuffix(p, s, other);
    }
  }

  lemma SpelledSoFar()
    ensures Spellable("a.length.b")
  {
    var path := "a.length.b";
    assert Last(path) == 'b' && path == "a.length" + "." + "b";
    assert "b" !in SIGN_TESTS + RECEIVER_SUFFIXES;
    forall s | s in SIGN_TESTS + RECEIVER_SUFFIXES ensures !EndsWith(path, "." + s) {
      SuffixSpelling(s);
      SuffixIsLast("a.length", "b", s);
    }
    assert ".length"[6] == 'h';
  }
}
