// A text as runs of code between string literals: rewriting the code alone, asking something of every
// run, stripping the ends, and the literals that all of it leaves as they were.
module LiteralRuns {
  import opened Wrappers
  import opened ExpressionText

  // ----- Outside the literals -----

  // The length of the run of code a text starts with.
  function CodeLength(text: string): (n: nat)
    ensures n <= |text| && forall i :: 0 <= i < n ==> !Quote(text[i])
    ensures n < |text| ==> Quote(text[n])
  {
    if text == "" || Quote(text[0]) then 0 else 1 + CodeLength(text[1..])
  }

  // Where a quote closes, if it does.
  function ClosesAt(text: string, quote: char): (at: Option<nat>)
    ensures at.Some? ==> at.value < |text| && text[at.value] == quote
  {
    if text == "" then None
    else if text[0] == quote then Some(0)
    else
      var later := ClosesAt(text[1..], quote);
      if later.Some? then Some(later.value + 1) else None
  }

  // The length of the literal a text starts with; one never closed runs to the end.
  function LiteralLength(text: string): (n: nat)
    requires text != "" && Quote(text[0])
    ensures 0 < n <= |text|
  {
    var at := ClosesAt(text[1..], text[0]);
    if at.Some? then at.value + 2 else |text|
  }

  type Rewrite = string -> string

  function MapOutside(text: string, f: Rewrite): string
    decreases |text|
  {
    if text == "" then ""
    else if Quote(text[0]) then
      var n := LiteralLength(text);
      text[..n] + MapOutside(text[n..], f)
    else
      var n := CodeLength(text);
      f(text[..n]) + MapOutside(text[n..], f)
  }

  predicate Code(s: string) { s != "" && forall c :: c in s ==> !Quote(c) }

  ghost predicate KeepsCode(f: Rewrite) {
    forall s :: Code(s) ==> Code(f(s))
  }

  lemma {:induction false} CodeThen(code: string, rest: string)
    requires (forall c :: c in code ==> !Quote(c)) && (rest == "" || Quote(rest[0]))
    ensures CodeLength(code + rest) == |code|
  {
    if code == "" {
      assert code + rest == rest;
    } else {
      assert (code + rest)[1..] == code[1..] + rest;
      CodeThen(code[1..], rest);
    }
  }

  lemma {:induction false} ClosesBefore(a: string, b: string, quote: char)
    ensures ClosesAt(a, quote).Some? ==> ClosesAt(a + b, quote) == ClosesAt(a, quote)
  {
    if a != "" {
      assert (a + b)[1..] == a[1..] + b;
      ClosesBefore(a[1..], b, quote);
    }
  }

  lemma {:induction false} ClosesWithin(text: string, quote: char, n: nat)
    requires ClosesAt(text, quote).Some? && ClosesAt(text, quote).value < n <= |text|
    ensures ClosesAt(text[..n], quote) == ClosesAt(text, quote)
  {
    if text[0] != quote {
      assert text[..n][1..] == text[1..][..n - 1];
      ClosesWithin(text[1..], quote, n - 1);
    }
  }

  // A text's first run stands alone: what follows a literal that closed, or a run of code, does not
  // change it.
  lemma LiteralThen(text: string, rest: string)
    requires text != "" && Quote(text[0]) && (LiteralLength(text) == |text| ==> rest == "")
    ensures var n := LiteralLength(text); var again := text[..n] + rest;
            again != "" && Quote(again[0]) && LiteralLength(again) == n
  {
    var n, q := LiteralLength(text), text[0];
    var at := ClosesAt(text[1..], q);
    if at.Some? {
      assert text[..n][1..] == text[1..][..n - 1];
      ClosesWithin(text[1..], q, n - 1);
      ClosesBefore(text[..n][1..], rest, q);
      assert (text[..n] + rest)[1..] == text[..n][1..] + rest;
    } else {
      assert text[..n] + rest == text;
    }
  }

  lemma {:induction false} MapCode(code: string, rest: string, f: Rewrite)
    requires Code(code) && (rest == "" || Quote(rest[0]))
    ensures MapOutside(code + rest, f) == f(code) + MapOutside(rest, f)
  {
    CodeThen(code, rest);
    assert code[0] in code;
    assert (code + rest)[..|code|] == code && (code + rest)[|code|..] == rest;
  }

  // What follows a run of code is nothing, or a literal, rewritten or not.
  lemma AfterCode(text: string, f: Rewrite)
    requires text == "" || Quote(text[0])
    ensures MapOutside(text, f) == "" || Quote(MapOutside(text, f)[0])
  {
  }

  // Two rewrites one after the other are one.
  lemma {:induction false} MapTwice(text: string, f: Rewrite, g: Rewrite)
    requires KeepsCode(f)
    ensures MapOutside(MapOutside(text, f), g) == MapOutside(text, (s: string) => g(f(s)))
    decreases |text|
  {
    var both := (s: string) => g(f(s));
    if text == "" {
    } else if Quote(text[0]) {
      var n := LiteralLength(text);
      var rest := MapOutside(text[n..], f);
      MapTwice(text[n..], f, g);
      LiteralThen(text, rest);
      assert (text[..n] + rest)[..n] == text[..n] && (text[..n] + rest)[n..] == rest;
    } else {
      var n := CodeLength(text);
      MapTwice(text[n..], f, g);
      AfterCode(text[n..], f);
      assert Code(text[..n]);
      MapCode(f(text[..n]), MapOutside(text[n..], f), g);
    }
  }

  lemma BothKeepCode(f: Rewrite, g: Rewrite, both: Rewrite)
    requires KeepsCode(f) && KeepsCode(g) && forall s {:trigger both(s)} :: both(s) == g(f(s))
    ensures KeepsCode(both)
  {
  }

  lemma {:induction false} MapSame(text: string, f: Rewrite, g: Rewrite)
    requires forall s :: f(s) == g(s)
    ensures MapOutside(text, f) == MapOutside(text, g)
    decreases |text|
  {
    if text != "" {
      MapSame(text[if Quote(text[0]) then LiteralLength(text) else CodeLength(text)..], f, g);
    }
  }

  lemma StepsAreOne(text: string, f: Rewrite, g: Rewrite, both: Rewrite)
    requires KeepsCode(f) && forall s {:trigger both(s)} :: both(s) == g(f(s))
    ensures MapOutside(MapOutside(text, f), g) == MapOutside(text, both)
  {
    MapTwice(text, f, g);
    MapSame(text, (s: string) => g(f(s)), both);
  }

  // ----- What every run of code is -----

  // Whether every run of code of a text is as asked.
  predicate AllCode(text: string, p: string -> bool)
    decreases |text|
  {
    if text == "" then true
    else if Quote(text[0]) then AllCode(text[LiteralLength(text)..], p)
    else p(text[..CodeLength(text)]) && AllCode(text[CodeLength(text)..], p)
  }

  lemma {:induction false} CodeAll(code: string, rest: string, p: string -> bool)
    requires Code(code) && (rest == "" || Quote(rest[0]))
    ensures AllCode(code + rest, p) <==> p(code) && AllCode(rest, p)
  {
    CodeThen(code, rest);
    assert code[0] in code;
    assert (code + rest)[..|code|] == code && (code + rest)[|code|..] == rest;
  }

  lemma LiteralAll(text: string, rest: string, p: string -> bool)
    requires text != "" && Quote(text[0]) && (LiteralLength(text) == |text| ==> rest == "")
    ensures AllCode(text[..LiteralLength(text)] + rest, p) <==> AllCode(rest, p)
  {
    var n := LiteralLength(text);
    LiteralThen(text, rest);
    assert (text[..n] + rest)[n..] == rest;
  }

  lemma {:induction false} MappedAll(text: string, f: Rewrite, p: string -> bool)
    requires KeepsCode(f) && forall s {:trigger f(s)} :: p(f(s))
    ensures AllCode(MapOutside(text, f), p)
    decreases |text|
  {
    if text == "" {
    } else if Quote(text[0]) {
      var n := LiteralLength(text);
      MappedAll(text[n..], f, p);
      LiteralAll(text, MapOutside(text[n..], f), p);
    } else {
      var n := CodeLength(text);
      MappedAll(text[n..], f, p);
      AfterCode(text[n..], f);
      assert Code(text[..n]);
      CodeAll(f(text[..n]), MapOutside(text[n..], f), p);
    }
  }

  // A text whose code a rewrite leaves alone is left alone.
  lemma {:induction false} MappedStays(text: string, f: Rewrite, p: string -> bool)
    requires AllCode(text, p) && forall s {:trigger p(s)} :: p(s) ==> f(s) == s
    ensures MapOutside(text, f) == text
    decreases |text|
  {
    if text != "" {
      var n := if Quote(text[0]) then LiteralLength(text) else CodeLength(text);
      var head, rest := text[..n], text[n..];
      MappedStays(rest, f, p);
      assert head + rest == text;
    }
  }

  // ----- Stripping -----

  lemma FrontSpace(text: string, p: string -> bool)
    requires text != "" && Space(text[0]) && AllCode(text, p)
    requires forall s {:trigger p(s)} :: p(s) && s != "" && Space(s[0]) ==> s[1..] == "" || p(s[1..])
    ensures AllCode(text[1..], p)
  {
    hide AllCode;
    FirstRun(text, p);
    var n := CodeLength(text);
    var code, rest := text[..n], text[n..];
    assert text == code + rest && text[1..] == code[1..] + rest;
    if n == 1 {
      assert text[1..] == rest;
    } else {
      assert Code(code[1..]);
      CodeAll(code[1..], rest, p);
    }
  }

  lemma {:induction false} FrontSpaceBack(text: string, p: string -> bool)
    requires text != "" && Space(text[0]) && AllCode(text[1..], p)
    requires forall s {:trigger p(s)} :: s != "" && Space(s[0]) && (s[1..] == "" || p(s[1..])) ==> p(s)
    ensures AllCode(text, p)
  {
    hide AllCode;
    var n := CodeLength(text);
    var code, rest := text[..n], text[n..];
    assert text == code + rest && text[1..] == code[1..] + rest;
    assert Code(code);
    if n == 1 {
      assert text[1..] == rest && code[1..] == "";
    } else {
      assert Code(code[1..]);
      CodeAll(code[1..], rest, p);
    }
    CodeAll(code, rest, p);
  }

  lemma {:induction false} ClosesNot(text: string, quote: char, n: nat)
    requires ClosesAt(text, quote).None? && n <= |text|
    ensures ClosesAt(text[..n], quote).None?
  {
    if n > 0 {
      ClosesNot(text[1..], quote, n - 1);
      assert text[..n][1..] == text[1..][..n - 1];
    }
  }

  function Front(text: string): string
    requires text != ""
  {
    text[..|text| - 1]
  }

  // A text that ends in a space within a literal: the literal was never closed.
  lemma OpenLiteral(text: string)
    requires text != "" && Quote(text[0]) && LiteralLength(text) == |text| && Space(text[|text| - 1])
    ensures Front(text) != "" && Quote(Front(text)[0]) && LiteralLength(Front(text)) == |Front(text)|
  {
    ClosesNot(text[1..], text[0], |text| - 2);
    assert Front(text)[1..] == text[1..][..|text| - 2];
  }

  lemma BackCode(text: string, p: string -> bool)
    requires Code(text) && p(text) && (Front(text) == "" || p(Front(text)))
    ensures AllCode(Front(text), p)
  {
    if Front(text) != "" {
      assert Code(Front(text));
      CodeAll(Front(text), "", p);
      assert Front(text) + "" == Front(text);
    }
  }

  lemma {:induction false} BackSpace(text: string, p: string -> bool)
    requires text != "" && Space(text[|text| - 1]) && AllCode(text, p)
    requires forall s {:trigger p(s)} :: p(s) && s != "" && Space(s[|s| - 1]) ==> Front(s) == "" || p(Front(s))
    ensures AllCode(Front(text), p)
    decreases |text|
  {
    hide AllCode;
    var n := if Quote(text[0]) then LiteralLength(text) else CodeLength(text);
    var head, rest := text[..n], text[n..];
    assert text == head + rest;
    FirstRun(text, p);
    if n < |text| {
      BackSpace(rest, p);
      assert Front(text) == head + Front(rest);
      if Quote(text[0]) {
        LiteralAll(text, Front(rest), p);
      } else {
        CodeAll(head, Front(rest), p);
      }
    } else if Quote(text[0]) {
      OpenLiteral(text);
      LoneLiteral(Front(text), p);
    } else {
      assert head == text;
      BackCode(text, p);
    }
  }

  lemma {:induction false} BackSpaceBack(text: string, p: string -> bool)
    requires text != "" && Space(text[|text| - 1]) && AllCode(Front(text), p)
    requires forall s {:trigger p(s)} :: s != "" && Space(s[|s| - 1]) && (Front(s) == "" || p(Front(s))) ==> p(s)
    ensures AllCode(text, p)
    decreases |text|
  {
    hide AllCode;
    var n := if Quote(text[0]) then LiteralLength(text) else CodeLength(text);
    var head, rest := text[..n], text[n..];
    assert text == head + rest;
    if n < |text| {
      assert Front(text) == head + Front(rest);
      if Quote(text[0]) {
        LiteralAll(text, Front(rest), p);
        BackSpaceBack(rest, p);
        LiteralAll(text, rest, p);
      } else {
        assert Code(head);
        CodeAll(head, Front(rest), p);
        BackSpaceBack(rest, p);
        CodeAll(head, rest, p);
      }
    } else if Quote(text[0]) {
      LoneLiteral(text, p);
    } else {
      assert head == text && Code(text);
      if Front(text) != "" {
        assert Code(Front(text));
        CodeAll(Front(text), "", p);
        assert Front(text) + "" == Front(text);
      }
      CodeAll(text, "", p);
      assert text + "" == text && p(text);
    }
  }

  lemma FirstRun(text: string, p: string -> bool)
    requires text != "" && AllCode(text, p)
    ensures var n := if Quote(text[0]) then LiteralLength(text) else CodeLength(text);
            AllCode(text[n..], p) && (!Quote(text[0]) ==> p(text[..n]) && Code(text[..n]))
  {
  }

  lemma LoneLiteral(text: string, p: string -> bool)
    requires text != "" && Quote(text[0]) && LiteralLength(text) == |text|
    ensures AllCode(text, p)
  {
    assert text[|text|..] == "";
  }

  lemma {:induction false} StrippedAll(text: string, p: string -> bool)
    requires AllCode(text, p)
    requires forall s {:trigger p(s)} :: p(s) && s != "" && Space(s[0]) ==> s[1..] == "" || p(s[1..])
    requires forall s {:trigger p(s)} :: p(s) && s != "" && Space(s[|s| - 1]) ==> Front(s) == "" || p(Front(s))
    ensures AllCode(Strip(text), p)
    decreases |text|
  {
    if text != "" {
      if Space(text[0]) {
        FrontSpace(text, p);
        StrippedAll(text[1..], p);
      } else if Space(text[|text| - 1]) {
        BackSpace(text, p);
        StrippedAll(Front(text), p);
      }
    }
  }

  lemma {:induction false} StripTwice(text: string)
    ensures Strip(Strip(text)) == Strip(text)
    decreases |text|
  {
    if text != "" {
      if Space(text[0]) {
        StripTwice(text[1..]);
      } else if Space(text[|text| - 1]) {
        StripTwice(Front(text));
      }
    }
  }

  // ----- What is never touched -----

  // The literals of a text that close.
  function Literals(text: string): seq<string>
    decreases |text|
  {
    if text == "" then []
    else if Quote(text[0]) then
      var n := LiteralLength(text);
      if ClosesAt(text[1..], text[0]).Some? then [text[..n]] + Literals(text[n..]) else []
    else Literals(text[CodeLength(text)..])
  }

  lemma CodeLiterals(code: string, rest: string)
    requires Code(code) && (rest == "" || Quote(rest[0]))
    ensures Literals(code + rest) == Literals(rest)
  {
    CodeThen(code, rest);
    assert code[0] in code;
    assert (code + rest)[|code|..] == rest;
  }

  lemma LiteralLiterals(text: string, rest: string)
    requires text != "" && Quote(text[0]) && ClosesAt(text[1..], text[0]).Some?
    ensures var n := LiteralLength(text); Literals(text[..n] + rest) == [text[..n]] + Literals(rest)
  {
    var n := LiteralLength(text);
    var s := text[..n] + rest;
    assert text[..n][1..] == text[1..][..n - 1];
    ClosesWithin(text[1..], text[0], n - 1);
    ClosesBefore(text[..n][1..], rest, text[0]);
    assert s[1..] == text[..n][1..] + rest && s[..n] == text[..n] && s[n..] == rest;
  }

  lemma {:induction false} MapKeepsLiterals(text: string, f: Rewrite)
    requires KeepsCode(f)
    ensures Literals(MapOutside(text, f)) == Literals(text)
    decreases |text|
  {
    if text == "" {
    } else if Quote(text[0]) {
      var n := LiteralLength(text);
      MapKeepsLiterals(text[n..], f);
      if ClosesAt(text[1..], text[0]).Some? {
        LiteralLiterals(text, MapOutside(text[n..], f));
      } else {
        assert text[n..] == "" && MapOutside(text, f) == text + "" == text;
      }
    } else {
      var n := CodeLength(text);
      MapKeepsLiterals(text[n..], f);
      AfterCode(text[n..], f);
      assert Code(text[..n]);
      CodeLiterals(f(text[..n]), MapOutside(text[n..], f));
    }
  }

  lemma FrontKeepsLiterals(text: string)
    requires text != "" && Space(text[0])
    ensures Literals(text[1..]) == Literals(text)
  {
    var n := CodeLength(text);
    var code, rest := text[..n], text[n..];
    assert text[1..] == code[1..] + rest;
    if n == 1 {
      assert text[1..] == rest;
    } else {
      assert Code(code[1..]);
      CodeLiterals(code[1..], rest);
    }
  }

  lemma BackOfCode(text: string)
    requires Code(text)
    ensures Literals(text) == [] && Literals(Front(text)) == []
  {
    CodeLiterals(text, "");
    assert text + "" == text;
    if Front(text) != "" {
      assert Code(Front(text));
      CodeLiterals(Front(text), "");
      assert Front(text) + "" == Front(text);
    }
  }

  lemma BackOfOpen(text: string)
    requires text != "" && Quote(text[0]) && ClosesAt(text[1..], text[0]).None? && Space(text[|text| - 1])
    ensures Literals(text) == [] && Literals(Front(text)) == []
  {
    ClosesNot(text[1..], text[0], |text| - 2);
    assert Front(text)[1..] == text[1..][..|text| - 2];
  }

  lemma {:induction false} BackKeepsLiterals(text: string)
    requires text != "" && Space(text[|text| - 1])
    ensures Literals(Front(text)) == Literals(text)
    decreases |text|
  {
    hide Literals;
    var n := if Quote(text[0]) then LiteralLength(text) else CodeLength(text);
    var head, rest := text[..n], text[n..];
    assert text == head + rest;
    if Quote(text[0]) && ClosesAt(text[1..], text[0]).None? {
      BackOfOpen(text);
    } else if Quote(text[0]) {
      assert text[n - 1] == text[0];
      BackKeepsLiterals(rest);
      LiteralLiterals(text, rest);
      LiteralLiterals(text, Front(rest));
      assert Front(text) == head + Front(rest);
    } else if n == |text| {
      BackOfCode(text);
    } else {
      BackKeepsLiterals(rest);
      CodeLiterals(head, rest);
      CodeLiterals(head, Front(rest));
      assert Front(text) == head + Front(rest);
    }
  }

  lemma {:induction false} StripKeepsLiterals(text: string)
    ensures Literals(Strip(text)) == Literals(text)
    decreases |text|
  {
    if text != "" {
      if Space(text[0]) {
        FrontKeepsLiterals(text);
        StripKeepsLiterals(text[1..]);
      } else if Space(text[|text| - 1]) {
        BackKeepsLiterals(text);
        StripKeepsLiterals(Front(text));
      }
    }
  }
}
