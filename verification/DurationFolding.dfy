// What folding durations does to durations called on one another: every pass leaves the seconds a
// text says as they were, and exactly the nestings a pass comes too late for are left unfolded.
module DurationFolding {
  import opened Wrappers
  import opened ExpressionText
  import opened LiteralRuns
  import opened CanonicalForm

  // ----- The durations of a text -----

  datatype Unit = Day | Hour | Minute

  function Token(u: Unit): string {
    match u case Day => "days" case Hour => "hours" case Minute => "minutes"
  }

  function Length(u: Unit): nat {
    match u case Day => 86400 case Hour => 3600 case Minute => 60
  }

  // The place of a unit's rule among the three.
  function Turn(u: Unit): nat {
    match u case Day => 1 case Hour => 2 case Minute => 3
  }

  function Folded(u: Unit, before: Option<char>, s: string): string { Scale(before, s, Token(u), Length(u)) }

  predicate Behind(before: Option<char>) { before.Some? && (WordChar(before.value) || before.value == '.') }

  predicate Starts(c: char) { c == 'd' || c == 'h' || c == 'm' }

  predicate Head(s: string, u: Unit) {
    |s| > |Token(u)| + 1 && s[..|Token(u)|] == Token(u) && s[|Token(u)|] == '('
  }

  function UnitAt(s: string): (u: Option<Unit>)
    ensures u.Some? ==> Head(s, u.value)
  {
    if Head(s, Day) then Some(Day) else if Head(s, Hour) then Some(Hour) else if Head(s, Minute) then Some(Minute)
        else None
  }

  // What a duration at the front of a text is called on.
  function Inside(s: string): (r: string)
    requires UnitAt(s).Some?
    ensures |r| < |s|
  {
    DropSpaces(s[|Token(UnitAt(s).value)| + 1..])
  }

  predicate Closes(s: string) { s != "" && s[0] == ')' }

  // A whole number or a duration at the front of a text.
  function Amount(s: string): (r: Option<Reading>)
    ensures r.Some? ==> 0 < r.value.length <= |s|
    decreases |s|, 1
  {
    var n := DigitRun(s);
    if n > 0 then Some(Reading(n, NatOf(s[..n]))) else Duration(s)
  }

  // A duration called on a whole number, or on a duration in its turn, in seconds.
  function Duration(s: string): (r: Option<Reading>)
    ensures r.Some? ==> UnitAt(s).Some? && 0 < r.value.length <= |s| && s[r.value.length - 1] == ')'
    decreases |s|, 0
  {
    if UnitAt(s).None? then None
    else
      var amount := Amount(Inside(s));
      if amount.None? then None
      else
        var tail := DropSpaces(Inside(s)[amount.value.length..]);
        if !Closes(tail) then None
        else
          Suffixed(s, amount.value.length);
          Some(Reading(|s| - |tail| + 1, amount.value.value * Length(UnitAt(s).value)))
  }

  lemma Suffixed(s: string, n: nat)
    requires UnitAt(s).Some? && n <= |Inside(s)|
    ensures var tail := DropSpaces(Inside(s)[n..]);
            |tail| < |s| && s[|s| - |tail|..] == tail && s[|s| - |Inside(s)|..] == Inside(s)
  {
    var inner := Inside(s);
    DropsToTail(s[|Token(UnitAt(s).value)| + 1..]);
    DropsToTail(inner[n..]);
  }

  // The text with every duration, however nested, said in seconds.
  function Seconds(before: Option<char>, s: string): string
    decreases |s|
  {
    if s == "" then ""
    else
      var d := if Behind(before) then None else Duration(s);
      if d.Some? then Numeral(d.value.value) + Seconds(Some(')'), s[d.value.length..])
      else [s[0]] + Seconds(Some(s[0]), s[1..])
  }

  // No word starts right behind a closing bracket.
  predicate Separated(s: string) {
    s == "" || ((Closes(s) && |s| > 1 ==> !WordChar(s[1])) && Separated(s[1..]))
  }

  lemma SeparatedTail(s: string)
    requires Separated(s)
    ensures s != "" ==> Separated(s[1..])
  {
  }

  lemma {:induction false} SeparatedFrom(s: string, n: nat)
    requires Separated(s) && n <= |s|
    ensures Separated(s[n..])
    ensures 0 < n < |s| && s[n - 1] == ')' ==> !WordChar(s[n])
  {
    if n > 0 {
      SeparatedFrom(s[1..], n - 1);
      assert s[1..][n - 1..] == s[n..];
    }
  }

  // ----- One pass over the pieces of a text -----

  lemma NoHead(u: Unit, before: Option<char>, s: string)
    requires s == "" || !Starts(s[0])
    ensures UnitAt(s).None? && Duration(s).None? && CallHead(before, s, Token(u)).None?
  {
    assert forall v :: Head(s, v) ==> s[0] == s[..|Token(v)|][0];
  }

  // Text that starts no word is read the same whatever came before it.
  lemma WhateverBefore(u: Unit, a: Option<char>, b: Option<char>, s: string)
    requires s == "" || !Starts(s[0]) || Behind(a) == Behind(b)
    ensures Folded(u, a, s) == Folded(u, b, s) && Seconds(a, s) == Seconds(b, s)
  {
    if s == "" || !Starts(s[0]) {
      NoHead(u, a, s);
      NoHead(u, b, s);
    } else {
      assert CallHead(a, s, Token(u)) == CallHead(b, s, Token(u));
    }
  }

  // A kept first character.
  lemma KeepsFirst(u: Unit, before: Option<char>, s: string)
    requires s != "" && CallHead(before, s, Token(u)).None?
    ensures Folded(u, before, s) == [s[0]] + Folded(u, Some(s[0]), s[1..])
  {
  }

  lemma PastHead(u: Unit, before: Option<char>, s: string)
    requires UnitAt(s).Some? && CallHead(before, s, Token(u)).None?
    ensures var t := Token(UnitAt(s).value) + "(";
            Folded(u, before, s) == t + Folded(u, Some('('), s[|t|..])
  {
    var t := Token(UnitAt(s).value) + "(";
    assert s == t + s[|t|..];
    KeepsFirst(u, before, s);
    assert s[1..] == t[1..] + s[|t|..];
    assert Token(u)[0] !in t[1..] by { PlainTail(UnitAt(s).value); }
    Copies(Some(s[0]), t[1..], s[|t|..], Token(u), Length(u));
    Rejoined(t, Folded(u, Some('('), s[|t|..]));
  }

  // Past its first letter a token starts no other.
  lemma PlainTail(u: Unit)
    ensures forall c :: c in Token(u)[1..] + "(" ==> !Starts(c)
    ensures (Token(u) + "(")[1..] == Token(u)[1..] + "("
  {
    match u
    case Day => assert Token(u)[1..] == "ays";
    case Hour => assert Token(u)[1..] == "ours";
    case Minute => assert Token(u)[1..] == "inutes";
  }

  lemma FoldedSome(u: Unit, before: Option<char>, s: string)
    ensures Folded(u, before, s) == "" <==> s == ""
  {
    hide CallHead;
  }

  lemma UnitKept(u: Unit, before: Option<char>, s: string)
    requires CallHead(before, s, Token(u)).None? && UnitAt(s).Some?
    ensures UnitAt(Folded(u, before, s)) == UnitAt(s)
  {
    hide CallHead, Folded;
    var t := Token(UnitAt(s).value) + "(";
    PastHead(u, before, s);
    var rest := Folded(u, Some('('), s[|t|..]);
    FoldedSome(u, Some('('), s[|t|..]);
    assert (t + rest)[..|t|] == t;
    HeadIs(t + rest, UnitAt(s).value);
  }

  lemma FoldedIs(u: Unit, before: Option<char>, s: string)
    ensures Folded(u, before, s) == Scale(before, s, Token(u), Length(u))
  {
  }

  lemma TokenSpelling(u: Unit)
    ensures forall c :: c in Token(u) + "(" ==> !Digit(c)
  {
    match u
    case Day => assert Token(u) + "(" == "days(";
    case Hour => assert Token(u) + "(" == "hours(";
    case Minute => assert Token(u) + "(" == "minutes(";
  }

  lemma UnitWas(u: Unit, before: Option<char>, s: string, v: Unit)
    requires UnitAt(Folded(u, before, s)) == Some(v)
    ensures UnitAt(s) == Some(v)
  {
    hide CallHead, Scale, UnitAt, Folded, Token;
    var t, out := Token(v) + "(", Folded(u, before, s);
    FoldedIs(u, before, s);
    HeadStarts(out, v);
    TokenSpelling(v);
    ScalePrefix(before, s, Token(u), Length(u), t);
    assert t[|t| - 1] == '(';
    FoldedIs(u, Some('('), s[|t|..]);
    FoldedSome(u, Some('('), s[|t|..]);
    HeadIs(s, v);
  }

  lemma HeadStarts(s: string, u: Unit)
    requires Head(s, u)
    ensures StartsWith(s, Token(u) + "(") && |s| > |Token(u)| + 1
  {
    assert s[..|Token(u)| + 1] == s[..|Token(u)|] + [s[|Token(u)|]];
  }

  // A unit is read of a folded text exactly where it was read before.
  lemma SameUnit(u: Unit, before: Option<char>, s: string)
    requires CallHead(before, s, Token(u)).None?
    ensures UnitAt(Folded(u, before, s)) == UnitAt(s)
  {
    hide UnitAt, Folded, CallHead;
    if UnitAt(s).Some? {
      UnitKept(u, before, s);
    } else if UnitAt(Folded(u, before, s)).Some? {
      UnitWas(u, before, s, UnitAt(Folded(u, before, s)).value);
    }
  }

  lemma HeadIs(s: string, u: Unit)
    requires |s| > |Token(u)| + 1 && s[..|Token(u)| + 1] == Token(u) + "("
    ensures UnitAt(s) == Some(u)
  {
    assert s[..|Token(u)|] == s[..|Token(u)| + 1][..|Token(u)|];
    assert s[0] == Token(u)[0];
    assert forall v :: Head(s, v) ==> s[0] == s[..|Token(v)|][0];
  }

  lemma {:induction false} SpacesPass(u: Unit, before: Option<char>, s: string)
    requires !Behind(before)
    ensures DropSpaces(Folded(u, before, s)) == Folded(u, before, DropSpaces(s))
    decreases |s|
  {
    hide CallHead;
    if s != "" && Space(s[0]) {
      NoHead(u, before, s);
      KeepsFirst(u, before, s);
      SpacesPass(u, Some(s[0]), s[1..]);
      WhateverBefore(u, before, Some(s[0]), DropSpaces(s[1..]));
      var tail := Folded(u, Some(s[0]), s[1..]);
      assert DropSpaces([s[0]] + tail) == DropSpaces(tail) by { assert ([s[0]] + tail)[1..] == tail; }
    } else if s != "" {
      FirstOut(u, before, s);
    }
  }

  // A pass starts its text with the character it found, or with a digit.
  lemma FirstOut(u: Unit, before: Option<char>, s: string)
    requires s != ""
    ensures var out := Folded(u, before, s);
            out != "" && (if CallHead(before, s, Token(u)).Some? then Digit(out[0]) else out[0] == s[0])
  {
    hide CallHead, Numeral;
    if CallHead(before, s, Token(u)).Some? {
      var digits := Numeral(CallHead(before, s, Token(u)).value.value * Length(u));
      assert digits[0] in digits;
    }
  }

  lemma {:induction false} DigitsAre(s: string, i: nat)
    requires i < DigitRun(s)
    ensures Digit(s[i])
  {
    assert s[..DigitRun(s)][i] in s[..DigitRun(s)];
  }

  // A whole number is kept, and stays as long.
  lemma DigitsPass(u: Unit, before: Option<char>, s: string)
    requires DigitRun(s) > 0
    ensures var n := DigitRun(s); var out := Folded(u, before, s);
            && out == s[..n] + Folded(u, Some(s[n - 1]), s[n..])
            && DigitRun(out) == n && Digit(s[n - 1])
  {
    hide CallHead, DigitRun;
    var n := DigitRun(s);
    var digits, rest := s[..n], s[n..];
    assert s == digits + rest;
    DigitsAre(s, n - 1);
    Copies(before, digits, rest, Token(u), Length(u));
    var out := Folded(u, Some(s[n - 1]), rest);
    if rest != "" {
      BehindKeeps(u, s[n - 1], rest);
    }
    DigitsThen(digits, out);
  }

  lemma BehindKeeps(u: Unit, c: char, s: string)
    requires WordChar(c) && s != ""
    ensures CallHead(Some(c), s, Token(u)).None? && Folded(u, Some(c), s) != "" && Folded(u, Some(c), s)[0] == s[0]
  {
  }

  // What a pass folds is a duration called on a whole number.
  lemma CallIsDuration(u: Unit, before: Option<char>, s: string)
    requires !Behind(before)
    ensures var call := CallHead(before, s, Token(u));
            && (call.Some? <==> UnitAt(s) == Some(u) && DigitRun(Inside(s)) > 0 && Duration(s).Some?)
            && (call.Some? ==> Duration(s) == Some(Reading(call.value.length, call.value.value * Length(u))))
  {
    hide NatOf, DigitRun, DropSpaces;
    if Head(s, u) {
      HeadIs(s, u) by { assert s[..|Token(u)| + 1] == s[..|Token(u)|] + [s[|Token(u)|]]; }
      assert Inside(s) == DropSpaces(s[|Token(u)| + 1..]);
      assert CallHead(before, s, Token(u)).Some? ==> Argument(s[|Token(u)| + 1..]).Some?;
    }
  }

  // What follows a folded call starts no word, so a pass leaves its first character.
  lemma BehindCall(u: Unit, s: string, n: nat)
    requires Separated(s) && 0 < n <= |s| && s[n - 1] == ')'
    ensures s[n..] == "" || !WordChar(s[n])
    ensures var out := Folded(u, Some(')'), s[n..]); out == "" || !WordChar(out[0])
  {
    SeparatedFrom(s, n);
    NoHead(u, Some(')'), s[n..]);
    if s[n..] != "" {
      FirstOut(u, Some(')'), s[n..]);
    }
  }

  // Brackets close where they did.
  lemma ClosesStill(u: Unit, before: Option<char>, s: string)
    ensures Closes(Folded(u, before, s)) <==> Closes(s)
    ensures Closes(s) ==> Folded(u, before, s) == ")" + Folded(u, Some(')'), s[1..])
  {
    hide CallHead;
    if s != "" {
      FirstOut(u, before, s);
      if Closes(s) {
        NoHead(u, before, s);
        KeepsFirst(u, before, s);
      } else if CallHead(before, s, Token(u)).Some? {
        assert !Digit(')');
      }
    } else {
      FoldedSome(u, before, s);
    }
  }

  // ----- A pass keeps what a duration says -----

  // What a pass makes of the text after an amount it read: it closes where it did.
  ghost predicate ReadAlike(u: Unit, s: string, now: string, was: Option<Reading>, became: Option<Reading>)
    requires was.Some? ==> was.value.length <= |s|
    requires became.Some? ==> became.value.length <= |now|
  {
    && (was.Some? <==> became.Some?)
    && (was.Some? ==>
          && was.value.value == became.value.value
          && var tail, out := DropSpaces(s[was.value.length..]), DropSpaces(now[became.value.length..]);
             && (Closes(out) <==> Closes(tail))
             && (Closes(tail) ==> out[1..] == Folded(u, Some(')'), tail[1..])))
  }

  lemma {:induction false} AmountKept(u: Unit, before: Option<char>, s: string)
    requires !Behind(before) && Separated(s)
    ensures ReadAlike(u, s, Folded(u, before, s), Amount(s), Amount(Folded(u, before, s)))
    decreases |s|, 1
  {
    hide Folded, DigitRun, CallHead, Duration, NatOf;
    var out := Folded(u, before, s);
    if DigitRun(s) > 0 {
      NumberKept(u, before, s);
    } else if CallHead(before, s, Token(u)).Some? {
      CallKept(u, before, s);
    } else {
      DurationKept(u, before, s);
      NotANumber(u, before, s);
      if Duration(s).Some? {
        AfterBracket(u, s, Duration(s).value.length);
      }
    }
  }

  lemma NotANumber(u: Unit, before: Option<char>, s: string)
    requires DigitRun(s) == 0 && CallHead(before, s, Token(u)).None?
    ensures DigitRun(Folded(u, before, s)) == 0
  {
    hide CallHead;
    if s != "" {
      FirstOut(u, before, s);
    }
  }

  lemma AfterBracket(u: Unit, s: string, n: nat)
    requires Separated(s) && 0 < n <= |s| && s[n - 1] == ')'
    ensures var tail, out := DropSpaces(s[n..]), DropSpaces(Folded(u, Some(')'), s[n..]));
            && (Closes(out) <==> Closes(tail))
            && (Closes(tail) ==> out[1..] == Folded(u, Some(')'), tail[1..]))
  {
    hide Folded;
    SpacesPass(u, Some(')'), s[n..]);
    ClosesStill(u, Some(')'), DropSpaces(s[n..]));
  }

  lemma NumberRead(s: string)
    ensures DigitRun(s) > 0 ==> Amount(s) == Some(Reading(DigitRun(s), NatOf(s[..DigitRun(s)])))
    ensures DigitRun(s) == 0 ==> Amount(s) == Duration(s)
  {
    hide DigitRun, NatOf, Duration;
  }

  lemma NumberKept(u: Unit, before: Option<char>, s: string)
    requires DigitRun(s) > 0
    ensures ReadAlike(u, s, Folded(u, before, s), Amount(s), Amount(Folded(u, before, s)))
  {
    hide Folded, DigitRun, CallHead, Duration, NatOf, Amount;
    var n, out := DigitRun(s), Folded(u, before, s);
    DigitsPass(u, before, s);
    NumberRead(s);
    NumberRead(out);
    var rest := Folded(u, Some(s[n - 1]), s[n..]);
    assert out[..n] == s[..n] && out[n..] == rest;
    if s[n..] == "" || !Space(s[n]) {
      ClosesStill(u, Some(s[n - 1]), s[n..]);
      KeptUnspaced(u, s[n - 1], s[n..]);
    } else {
      WhateverBefore(u, Some(s[n - 1]), None, s[n..]);
      SpacesPass(u, None, s[n..]);
      ClosesStill(u, None, DropSpaces(s[n..]));
    }
  }

  lemma KeptUnspaced(u: Unit, c: char, s: string)
    requires WordChar(c) && (s == "" || !Space(s[0]))
    ensures DropSpaces(s) == s && DropSpaces(Folded(u, Some(c), s)) == Folded(u, Some(c), s)
  {
    if s != "" {
      BehindKeeps(u, c, s);
    }
  }

  lemma CallKept(u: Unit, before: Option<char>, s: string)
    requires !Behind(before) && Separated(s) && CallHead(before, s, Token(u)).Some? && DigitRun(s) == 0
    ensures ReadAlike(u, s, Folded(u, before, s), Amount(s), Amount(Folded(u, before, s)))
  {
    hide DigitRun, CallHead, Duration, NatOf, Numeral, Folded, Amount, DropSpaces, Separated;
    CallIsDuration(u, before, s);
    NumberRead(s);
    var d := Duration(s).value;
    var digits, rest := Numeral(d.value), Folded(u, Some(')'), s[d.length..]);
    FoldsTo(u, before, s);
    BehindCall(u, s, d.length);
    DigitsThen(digits, rest);
    NatOfNumeral(d.value);
    NumberRead(digits + rest);
    assert (digits + rest)[..|digits|] == digits && (digits + rest)[|digits|..] == rest;
    AfterBracket(u, s, d.length);
  }

  lemma FoldsTo(u: Unit, before: Option<char>, s: string)
    requires CallHead(before, s, Token(u)).Some?
    ensures var call := CallHead(before, s, Token(u)).value;
            Folded(u, before, s) == Numeral(call.value * Length(u)) + Folded(u, Some(')'), s[call.length..])
  {
    hide CallHead, Numeral;
  }

  lemma {:induction false} DurationKept(u: Unit, before: Option<char>, s: string)
    requires Separated(s) && CallHead(before, s, Token(u)).None?
    ensures var out := Folded(u, before, s); var was, now := Duration(s), Duration(out);
            && (was.Some? <==> now.Some?)
            && (was.Some? ==> was.value.value == now.value.value
                              && out[now.value.length..] == Folded(u, Some(')'), s[was.value.length..]))
    decreases |s|, 0
  {
    hide Folded, CallHead, Amount, UnitAt, DropSpaces, ReadAlike, Duration;
    SameUnit(u, before, s);
    if UnitAt(s).Some? {
      InsideKept(u, before, s);
      AmountKept(u, Some('('), Inside(s));
      ReadOutside(u, s, Folded(u, before, s));
    } else {
      NoUnit(s);
      NoUnit(Folded(u, before, s));
    }
  }

  lemma NoUnit(s: string)
    requires UnitAt(s).None?
    ensures Duration(s).None?
  {
  }

  // Two durations of one unit called on amounts that read alike read alike.
  lemma ReadOutside(u: Unit, s: string, out: string)
    requires UnitAt(s).Some? && UnitAt(out) == UnitAt(s)
    requires ReadAlike(u, Inside(s), Inside(out), Amount(Inside(s)), Amount(Inside(out)))
    ensures var was, now := Duration(s), Duration(out);
            && (was.Some? <==> now.Some?)
            && (was.Some? ==> was.value.value == now.value.value
                              && out[now.value.length..] == Folded(u, Some(')'), s[was.value.length..]))
  {
    hide Folded, CallHead, Amount, UnitAt, DropSpaces, Inside;
    if Amount(Inside(s)).Some? && Closes(DropSpaces(Inside(s)[Amount(Inside(s)).value.length..])) {
      TailAfter(s, Amount(Inside(s)).value.length);
      TailAfter(out, Amount(Inside(out)).value.length);
    }
  }

  lemma TailAfter(s: string, n: nat)
    requires UnitAt(s).Some? && n <= |Inside(s)|
    requires Closes(DropSpaces(Inside(s)[n..]))
    ensures var tail := DropSpaces(Inside(s)[n..]); |tail| <= |s| && s[|s| - |tail| + 1..] == tail[1..]
  {
    Suffixed(s, n);
    var tail := DropSpaces(Inside(s)[n..]);
    assert s[|s| - |tail|..][1..] == s[|s| - |tail| + 1..];
  }

  lemma InsideKept(u: Unit, before: Option<char>, s: string)
    requires Separated(s) && CallHead(before, s, Token(u)).None? && UnitAt(s).Some?
    ensures UnitAt(Folded(u, before, s)) == UnitAt(s)
    ensures Inside(Folded(u, before, s)) == Folded(u, Some('('), Inside(s)) && Separated(Inside(s))
  {
    hide Folded, CallHead, UnitAt;
    var t := Token(UnitAt(s).value) + "(";
    SameUnit(u, before, s);
    PastHead(u, before, s);
    var rest := Folded(u, Some('('), s[|t|..]);
    assert (t + rest)[|t|..] == rest;
    SpacesPass(u, Some('('), s[|t|..]);
    Suffixed(s, 0);
    SeparatedFrom(s, |s| - |Inside(s)|);
  }

  // ----- A pass keeps the seconds a text says -----

  lemma {:induction false} DigitsSaid(before: Option<char>, digits: string, rest: string)
    requires Digits(digits) && digits != ""
    ensures Seconds(before, digits + rest) == digits + Seconds(Some(digits[|digits| - 1]), rest)
    decreases |digits|
  {
    hide Duration;
    var s := digits + rest;
    assert digits[0] in digits && s[0] == digits[0] && s[1..] == digits[1..] + rest;
    NoHead(Day, before, s);
    if |digits| > 1 {
      assert forall c :: c in digits[1..] ==> c in digits;
      DigitsSaid(Some(digits[0]), digits[1..], rest);
      Rejoined(digits, Seconds(Some(digits[|digits| - 1]), rest));
    } else {
      assert s[1..] == rest && digits == [digits[0]];
    }
  }

  lemma {:induction false} SecondsKept(u: Unit, before: Option<char>, s: string)
    requires Separated(s)
    ensures Seconds(before, Folded(u, before, s)) == Seconds(before, s)
    decreases |s|
  {
    hide Folded, Duration, CallHead, Numeral;
    if s == "" {
      FoldedSome(u, before, s);
    } else if CallHead(before, s, Token(u)).Some? {
      SaidFolded(u, before, s);
      SecondsKept(u, Some(')'), s[Duration(s).value.length..]) by { SeparatedFrom(s, Duration(s).value.length); }
    } else if !Behind(before) && Duration(s).Some? {
      DurationKept(u, before, s);
      FoldedSome(u, before, s);
      SecondsKept(u, Some(')'), s[Duration(s).value.length..]) by { SeparatedFrom(s, Duration(s).value.length); }
    } else {
      DurationKept(u, before, s);
      KeepsFirst(u, before, s);
      var out := Folded(u, before, s);
      assert out[0] == s[0] && out[1..] == Folded(u, Some(s[0]), s[1..]);
      SecondsKept(u, Some(s[0]), s[1..]);
    }
  }

  lemma SecondsOfDuration(before: Option<char>, s: string)
    requires !Behind(before) && Duration(s).Some?
    ensures var d := Duration(s).value;
            Seconds(before, s) == Numeral(d.value) + Seconds(Some(')'), s[d.length..])
  {
    hide Duration;
  }

  lemma SaidFolded(u: Unit, before: Option<char>, s: string)
    requires Separated(s) && CallHead(before, s, Token(u)).Some?
    ensures !Behind(before) && Duration(s).Some?
    ensures var d := Duration(s).value; var rest := Folded(u, Some(')'), s[d.length..]);
            && Seconds(before, Folded(u, before, s)) == Numeral(d.value) + Seconds(Some(')'), rest)
            && Seconds(before, s) == Numeral(d.value) + Seconds(Some(')'), s[d.length..])
  {
    hide Folded, Duration, Numeral, CallHead, UnitAt, Inside, Seconds;
    NotBehind(u, before, s);
    CallIsDuration(u, before, s);
    SecondsOfDuration(before, s);
    var d := Duration(s).value;
    var digits, rest := Numeral(d.value), Folded(u, Some(')'), s[d.length..]);
    FoldsTo(u, before, s);
    DigitsSaid(before, digits, rest);
    BehindCall(u, s, d.length);
    WhateverBefore(u, Some(digits[|digits| - 1]), Some(')'), rest);
  }

  lemma {:induction false} FoldedSeparated(u: Unit, before: Option<char>, s: string)
    requires Separated(s)
    ensures Separated(Folded(u, before, s))
    decreases |s|
  {
    hide Folded, CallHead, Numeral;
    if s == "" {
      FoldedSome(u, before, s);
    } else if CallHead(before, s, Token(u)).Some? {
      var call := CallHead(before, s, Token(u)).value;
      SaidFolded(u, before, s);
      CallIsDuration(u, before, s);
      SeparatedFrom(s, call.length);
      FoldedSeparated(u, Some(')'), s[call.length..]);
      FoldsTo(u, before, s);
      DigitsSeparated(Numeral(call.value * Length(u)), Folded(u, Some(')'), s[call.length..]));
    } else {
      KeepsFirst(u, before, s);
      FoldedSeparated(u, Some(s[0]), s[1..]);
      var tail := Folded(u, Some(s[0]), s[1..]);
      FoldedSome(u, Some(s[0]), s[1..]);
      if s[0] == ')' && tail != "" {
        BehindCall(u, s, 1);
      }
      assert ([s[0]] + tail)[1..] == tail;
    }
  }

  lemma {:induction false} DigitsSeparated(digits: string, rest: string)
    requires Digits(digits) && Separated(rest)
    ensures Separated(digits + rest)
  {
    hide Separated;
    if digits == "" {
      assert digits + rest == rest;
    } else {
      assert digits[0] in digits && forall c :: c in digits[1..] ==> c in digits;
      DigitsSeparated(digits[1..], rest);
      SeparatedOneMore(digits[0], digits[1..] + rest);
      Rejoined(digits, rest);
    }
  }

  lemma {:induction false} CollapseSeparated(s: string)
    requires Separated(s)
    ensures Separated(Collapse(s))
    decreases |s|
  {
    hide Separated;
    if s != "" {
      if Space(s[0]) {
        var rest := DropSpaces(s);
        DropsToTail(s);
        SeparatedFrom(s, |s| - |rest|);
        CollapseSeparated(rest);
        SeparatedOneMore(' ', Collapse(rest));
        assert " " + Collapse(rest) == [' '] + Collapse(rest);
      } else {
        SeparatedFrom(s, 1);
        CollapseSeparated(s[1..]);
        CollapseCollapses(s[1..]);
        SeparatedOneMore(s[0], Collapse(s[1..]));
      }
    }
  }

  lemma SeparatedOneMore(c: char, rest: string)
    requires Separated(rest) && (c == ')' && rest != "" ==> !WordChar(rest[0]))
    ensures Separated([c] + rest)
  {
    assert ([c] + rest)[1..] == rest;
  }

  lemma {:induction false} SizesSeparated(s: string)
    requires Separated(s)
    ensures Separated(Sizes(s))
    decreases |s|
  {
    if s != "" {
      if LengthHead(s) {
        SeparatedFrom(s, 7);
        SizesSeparated(s[7..]);
        SizeSeparated(Sizes(s[7..]));
      } else {
        SizesSeparated(s[1..]);
        SizesFirst(s);
        if s[1..] != "" {
          SizesFirst(s[1..]);
        }
        SeparatedOneMore(s[0], Sizes(s[1..]));
      }
    }
  }

  lemma SizeSeparated(rest: string)
    requires Separated(rest)
    ensures Separated(".size" + rest)
  {
    hide Separated;
    assert "e" + rest == ['e'] + rest;
    SeparatedOneMore('e', rest);
    SeparatedOneMore('z', "e" + rest);
    assert "z" + ("e" + rest) == "ze" + rest;
    SeparatedOneMore('i', "ze" + rest);
    assert "i" + ("ze" + rest) == "ize" + rest;
    SeparatedOneMore('s', "ize" + rest);
    assert "s" + ("ize" + rest) == "size" + rest;
    SeparatedOneMore('.', "size" + rest);
    assert "." + ("size" + rest) == ".size" + rest;
  }

  // The duration rules leave what a run of code says in seconds as it was.
  lemma RulesKeepSeconds(s: string)
    requires Separated(s)
    ensures Separated(Sized(s)) && Separated(Canonical(s))
    ensures Seconds(None, Canonical(s)) == Seconds(None, Sized(s))
  {
    hide Seconds, Separated, Scale, Collapse, Sizes;
    CollapseSeparated(s);
    SizesSeparated(Collapse(s));
    var sized := Sized(s);
    SecondsKept(Day, None, sized);
    FoldedSeparated(Day, None, sized);
    SecondsKept(Hour, None, Days(sized));
    FoldedSeparated(Hour, None, Days(sized));
    SecondsKept(Minute, None, Hours(Days(sized)));
    FoldedSeparated(Minute, None, Hours(Days(sized)));
  }

  // ----- What is left unfolded -----

  // Called directly on a duration whose rule runs no sooner than its own.
  predicate CalledLate(s: string)
    requires UnitAt(s).Some?
  {
    UnitAt(Inside(s)).Some? && Turn(UnitAt(s).value) <= Turn(UnitAt(Inside(s)).value)
  }

  // After the first `k` passes, a duration at the front that no later pass will fold.
  predicate LateHere(k: nat, s: string) {
    Duration(s).Some? && (Turn(UnitAt(s).value) <= k || CalledLate(s))
  }

  predicate Late(k: nat, before: Option<char>, s: string)
    decreases |s|
  {
    s != "" && ((!Behind(before) && LateHere(k, s)) || Late(k, Some(s[0]), s[1..]))
  }

  lemma {:induction false} LateFrom(k: nat, before: Option<char>, s: string, n: nat)
    requires 0 < n <= |s| && Late(k, Some(s[n - 1]), s[n..])
    ensures Late(k, before, s)
    decreases |s|
  {
    if n > 1 {
      assert s[1..][n - 1..] == s[n..];
      LateFrom(k, Some(s[0]), s[1..], n - 1);
    }
  }

  lemma NothingHere(k: nat, s: string)
    requires s == "" || !Starts(s[0])
    ensures !LateHere(k, s)
  {
    NoHead(Day, None, s);
  }

  lemma {:induction false} LateOver(k: nat, before: Option<char>, s: string, n: nat)
    requires 0 < n <= |s| && forall i :: 0 <= i < n ==> !Starts(s[i])
    ensures Late(k, before, s) <==> Late(k, Some(s[n - 1]), s[n..])
    decreases |s|
  {
    hide LateHere;
    NothingHere(k, s);
    if n > 1 {
      assert s[1..][n - 1..] == s[n..];
      LateOver(k, Some(s[0]), s[1..], n - 1);
    }
  }

  lemma LateWhatever(k: nat, a: Option<char>, b: Option<char>, s: string)
    requires s == "" || !Starts(s[0])
    ensures Late(k, a, s) == Late(k, b, s)
  {
    NoHead(Day, a, s);
  }

  lemma {:induction false} DroppedAreSpaces(s: string, i: nat)
    requires i < |s| - |DropSpaces(s)|
    ensures Space(s[i])
  {
    if i > 0 {
      DroppedAreSpaces(s[1..], i - 1);
    }
  }

  // Past its first letter a call on a whole number starts no word.
  lemma CallPlain(u: Unit, before: Option<char>, s: string, i: nat)
    requires CallHead(before, s, Token(u)).Some? && 0 < i < CallHead(before, s, Token(u)).value.length
    ensures !Starts(s[i])
  {
    hide NatOf, DigitRun, Argument, DropSpaces;
    var k := |Token(u)|;
    if i <= k {
      PlainTail(u);
      assert s[..k + 1] == Token(u) + "(";
      assert s[i] == (Token(u) + "(")[1..][i - 1];
    } else {
      ArgumentPlain(s[k + 1..], i - k - 1);
    }
  }

  lemma ArgumentPlain(s: string, i: nat)
    requires Argument(s).Some? && i < Argument(s).value.length
    ensures !Starts(s[i])
  {
    hide NatOf, DigitRun, DropSpaces;
    var inner := DropSpaces(s);
    var n := DigitRun(inner);
    var tail := DropSpaces(inner[n..]);
    TailOf(s);
    DropsToTail(s);
    DropsToTail(inner[n..]);
    var at := |s| - |inner|;
    if i < at {
      DroppedAreSpaces(s, i);
    } else if i < at + n {
      DigitsAre(inner, i - at);
    } else if i < |s| - |tail| {
      DroppedAreSpaces(inner[n..], i - at - n);
    }
  }

  lemma NotBehind(u: Unit, before: Option<char>, s: string)
    requires CallHead(before, s, Token(u)).Some?
    ensures !Behind(before)
  {
  }

  lemma CallSkipped(u: Unit, before: Option<char>, s: string)
    requires CallHead(before, s, Token(u)).Some?
    ensures var n := CallHead(before, s, Token(u)).value.length;
            Late(Turn(u) - 1, before, s) <==> Late(Turn(u) - 1, Some(')'), s[n..])
  {
    hide CallHead, LateHere, Token;
    var n := CallHead(before, s, Token(u)).value.length;
    CallIsNotLate(u, before, s);
    forall i | 0 <= i < n - 1 ensures !Starts(s[1..][i]) { CallPlain(u, before, s, i + 1); }
    assert s[1..][n - 1..] == s[n..] && s[1..][n - 2] == s[n - 1];
    LateOver(Turn(u) - 1, Some(s[0]), s[1..], n - 1);
  }

  lemma CallIsNotLate(u: Unit, before: Option<char>, s: string)
    requires CallHead(before, s, Token(u)).Some?
    ensures !LateHere(Turn(u) - 1, s) && CallHead(before, s, Token(u)).value.length > 1
  {
    NotBehind(u, before, s);
    hide DigitRun, Duration, CallHead, Inside, UnitAt;
    CallIsDuration(u, before, s);
    NumberIsNoUnit(Inside(s));
  }

  lemma NumberIsNoUnit(s: string)
    requires DigitRun(s) > 0
    ensures UnitAt(s).None?
  {
    DigitsAre(s, 0);
    NoHead(Day, None, s);
  }

  lemma BeforeInside(s: string)
    requires UnitAt(s).Some?
    ensures var n := |s| - |Inside(s)|;
            0 < n && s[n..] == Inside(s) && !Behind(Some(s[n - 1]))
  {
    Suffixed(s, 0);
    var k, n := |Token(UnitAt(s).value)| + 1, |s| - |Inside(s)|;
    if n > k {
      DroppedAreSpaces(s[k..], n - 1 - k);
    }
  }

  // A pass leaves a duration late that was, and makes none late that holds none.
  lemma HereLate(u: Unit, before: Option<char>, s: string)
    requires !Behind(before) && Separated(s) && CallHead(before, s, Token(u)).None?
    ensures LateHere(Turn(u) - 1, s) ==> LateHere(Turn(u), Folded(u, before, s))
    ensures LateHere(Turn(u), Folded(u, before, s)) ==> Late(Turn(u) - 1, before, s)
  {
    hide Folded, DigitRun, Duration, Inside, CallHead, UnitAt, Late, Separated;
    var out := Folded(u, before, s);
    DurationKept(u, before, s);
    if Duration(s).Some? {
      InsideKept(u, before, s);
      InsideUnits(u, s, out);
      if LateHere(Turn(u) - 1, s) {
        LateNow(Turn(u) - 1, before, s);
      } else if LateHere(Turn(u), out) {
        LateWithin(u, before, s);
      }
    }
  }

  lemma LateNow(k: nat, before: Option<char>, s: string)
    requires !Behind(before) && LateHere(k, s)
    ensures Late(k, before, s)
  {
  }

  lemma LateWithin(u: Unit, before: Option<char>, s: string)
    requires !Behind(before) && CallHead(before, s, Token(u)).None?
    requires Duration(s).Some? && UnitAt(s) == Some(u) && !LateHere(Turn(u) - 1, s)
    ensures Late(Turn(u) - 1, before, s)
  {
    hide DigitRun, Duration, Inside, CallHead, UnitAt;
    CallIsDuration(u, before, s);
    OverdueInside(s);
    BeforeInside(s);
    LateFrom(Turn(u) - 1, before, s, |s| - |Inside(s)|);
  }

  lemma InsideUnits(u: Unit, s: string, out: string)
    requires UnitAt(s).Some? && UnitAt(out).Some? && Inside(out) == Folded(u, Some('('), Inside(s))
    ensures UnitAt(Inside(out)).Some? ==> UnitAt(Inside(s)) == UnitAt(Inside(out))
    ensures UnitAt(Inside(s)).Some? && UnitAt(Inside(s)) != Some(u) ==> UnitAt(Inside(out)) == UnitAt(Inside(s))
  {
    hide Folded, DigitRun, Inside, CallHead, UnitAt, Duration;
    if UnitAt(Inside(out)).Some? {
      UnitWas(u, Some('('), Inside(s), UnitAt(Inside(out)).value);
    }
    CallIsDuration(u, Some('('), Inside(s));
    if UnitAt(Inside(s)).Some? && UnitAt(Inside(s)) != Some(u) {
      UnitKept(u, Some('('), Inside(s));
    }
  }

  lemma OverdueInside(s: string)
    requires Duration(s).Some? && DigitRun(Inside(s)) == 0
    ensures UnitAt(Inside(s)).Some? && Duration(Inside(s)).Some?
  {
  }

  lemma {:induction false} PassLate(u: Unit, before: Option<char>, s: string)
    requires Separated(s)
    ensures Late(Turn(u), before, Folded(u, before, s)) <==> Late(Turn(u) - 1, before, s)
    decreases |s|
  {
    hide Folded, Duration, CallHead, Numeral, LateHere, UnitAt, Inside, Separated;
    SeparatedTail(s);
    if s == "" {
      FoldedSome(u, before, s);
    } else if CallHead(before, s, Token(u)).Some? {
      var call := CallHead(before, s, Token(u)).value;
      NotBehind(u, before, s);
      CallIsDuration(u, before, s);
      CallSkipped(u, before, s);
      SeparatedFrom(s, call.length);
      PassLate(u, Some(')'), s[call.length..]);
      FoldsTo(u, before, s);
      BehindCall(u, s, call.length);
      LatePastDigits(Turn(u), before, Numeral(call.value * Length(u)), Folded(u, Some(')'), s[call.length..]));
    } else {
      KeepsFirst(u, before, s);
      PassLate(u, Some(s[0]), s[1..]);
      var out := Folded(u, before, s);
      assert out[0] == s[0] && out[1..] == Folded(u, Some(s[0]), s[1..]);
      if !Behind(before) {
        HereLate(u, before, s);
      }
    }
  }

  lemma LatePastDigits(k: nat, before: Option<char>, digits: string, rest: string)
    requires Digits(digits) && digits != "" && (rest == "" || !WordChar(rest[0]))
    ensures Late(k, before, digits + rest) <==> Late(k, Some(')'), rest)
  {
    var s := digits + rest;
    forall i | 0 <= i < |digits| ensures !Starts(s[i]) { assert digits[i] in digits; }
    LateOver(k, before, s, |digits|);
    assert s[|digits|..] == rest;
    LateWhatever(k, Some(s[|digits| - 1]), Some(')'), rest);
  }

  predicate Uncalled(before: Option<char>, s: string) {
    NoCall(before, s, "days") && NoCall(before, s, "hours") && NoCall(before, s, "minutes")
  }

  lemma {:induction false} NoCallFrom(before: Option<char>, s: string, token: string, n: nat)
    requires NoCall(before, s, token) && 0 < n <= |s|
    ensures NoCall(Some(s[n - 1]), s[n..], token)
    decreases |s|
  {
    hide CallHead;
    if n > 1 {
      NoCallFrom(Some(s[0]), s[1..], token, n - 1);
      assert s[1..][n - 1..] == s[n..];
    }
  }

  // Within any duration there is one called on a whole number.
  lemma {:induction false} InnerCall(before: Option<char>, s: string)
    requires !Behind(before) && Duration(s).Some?
    ensures !Uncalled(before, s)
    decreases |s|
  {
    hide CallHead, DigitRun, Inside;
    var u := UnitAt(s).value;
    if Uncalled(before, s) {
      CallIsDuration(u, before, s);
      assert NoCall(before, s, Token(u)) && s != "";
      assert DigitRun(Inside(s)) == 0;
      OverdueInside(s);
      BeforeInside(s);
      var n := |s| - |Inside(s)|;
      NoCallFrom(before, s, "days", n);
      NoCallFrom(before, s, "hours", n);
      NoCallFrom(before, s, "minutes", n);
      InnerCall(Some(s[n - 1]), Inside(s));
    }
  }

  // After the last pass what is late is what is left.
  lemma {:induction false} LateIsLeft(before: Option<char>, s: string)
    ensures Late(3, before, s) <==> !Uncalled(before, s)
    decreases |s|
  {
    hide CallHead, DigitRun, Duration;
    if s != "" {
      LateIsLeft(Some(s[0]), s[1..]);
      if !Behind(before) {
        CallIsDuration(Day, before, s);
        CallIsDuration(Hour, before, s);
        CallIsDuration(Minute, before, s);
        if Duration(s).Some? {
          InnerCall(before, s);
        }
      } else {
        BehindCalls(before, s);
      }
    }
  }

  lemma BehindCalls(before: Option<char>, s: string)
    requires Behind(before)
    ensures forall u: Unit :: CallHead(before, s, Token(u)).None?
    ensures CallHead(before, s, "days").None? && CallHead(before, s, "hours").None?
            && CallHead(before, s, "minutes").None?
  {
  }

  // A text with no call left is what it says in seconds.
  lemma {:induction false} NothingLate(before: Option<char>, s: string)
    requires !Late(3, before, s)
    ensures Seconds(before, s) == s
    decreases |s|
  {
    hide Duration;
    if s != "" {
      NothingLate(Some(s[0]), s[1..]);
    }
  }

  // A run of code is folded in full exactly when it calls no duration directly on a duration whose
  // rule runs no sooner: days on any, hours on hours or minutes, minutes on minutes.
  lemma RunSettles(s: string)
    requires Separated(s)
    ensures NoCalls(Canonical(s)) <==> !Late(0, None, Sized(s))
    ensures !Late(0, None, Sized(s)) ==> Canonical(s) == Seconds(None, Sized(s))
  {
    hide Seconds, Separated, Scale, Collapse, Sizes, Late;
    RulesKeepSeconds(s);
    var sized := Sized(s);
    PassLate(Day, None, sized);
    FoldedSeparated(Day, None, sized);
    PassLate(Hour, None, Days(sized));
    FoldedSeparated(Hour, None, Days(sized));
    PassLate(Minute, None, Hours(Days(sized)));
    LateIsLeft(None, Canonical(s));
    if !Late(0, None, sized) {
      NothingLate(None, Canonical(s));
    }
  }

  // ----- Whole texts -----

  lemma {:induction false} DropsThenSpace(s: string, c: char)
    requires Space(c)
    ensures DropSpaces(s + [c]) == if DropSpaces(s) == "" then "" else DropSpaces(s) + [c]
  {
    if s == "" {
      assert (s + [c])[1..] == "";
    } else if Space(s[0]) {
      assert (s + [c])[1..] == s[1..] + [c];
      DropsThenSpace(s[1..], c);
    }
  }

  lemma {:induction false} DigitsThenSpace(s: string, c: char)
    requires Space(c)
    ensures DigitRun(s + [c]) == DigitRun(s)
  {
    if s != "" {
      assert (s + [c])[1..] == s[1..] + [c];
      DigitsThenSpace(s[1..], c);
    } else {
      assert (s + [c])[0] == c;
    }
  }

  lemma ArgumentThenSpace(s: string, c: char)
    requires Space(c)
    ensures Argument(s + [c]).Some? <==> Argument(s).Some?
  {
    hide DigitRun, NatOf, DropSpaces;
    var inner := DropSpaces(s);
    DropsThenSpace(s, c);
    DigitsThenSpace(inner, c);
    var n := DigitRun(inner);
    NoDigits();
    if n > 0 {
      assert (inner + [c])[n..] == inner[n..] + [c];
      DropsThenSpace(inner[n..], c);
    }
  }

  lemma NoDigits()
    ensures DigitRun("") == 0
  {
  }

  lemma CallThenSpace(before: Option<char>, s: string, c: char, token: string)
    requires Space(c)
    ensures CallHead(before, s + [c], token).Some? <==> CallHead(before, s, token).Some?
  {
    hide Argument;
    var k := |token|;
    if |s| > k + 1 {
      assert (s + [c])[..k] == s[..k] && (s + [c])[k + 1..] == s[k + 1..] + [c];
      ArgumentThenSpace(s[k + 1..], c);
    } else if |s| == k + 1 {
      assert (s + [c])[k + 1..] == "" + [c];
      ArgumentThenSpace("", c);
      NoArgument();
    }
  }

  lemma NoArgument()
    ensures Argument("").None?
  {
  }

  lemma {:induction false} CallsThenSpace(before: Option<char>, s: string, c: char, token: string)
    requires Space(c)
    ensures NoCall(before, s + [c], token) <==> NoCall(before, s, token)
    decreases |s|
  {
    hide CallHead;
    CallThenSpace(before, s, c, token);
    if s != "" {
      assert (s + [c])[1..] == s[1..] + [c];
      CallsThenSpace(Some(s[0]), s[1..], c, token);
    } else {
      assert (s + [c])[1..] == "";
    }
  }

  // Spaces at its ends call nothing.
  lemma EndsCallNothing(s: string)
    requires s != ""
    ensures Space(s[0]) ==> (NoCalls(s) <==> NoCalls(s[1..]))
    ensures Space(s[|s| - 1]) ==> (NoCalls(s) <==> NoCalls(Front(s)))
  {
    hide CallHead, NoCall;
    if Space(s[0]) {
      SpaceFirst(s, "days");
      SpaceFirst(s, "hours");
      SpaceFirst(s, "minutes");
    }
    if Space(s[|s| - 1]) {
      var c := s[|s| - 1];
      assert s == Front(s) + [c];
      CallsThenSpace(None, Front(s), c, "days");
      CallsThenSpace(None, Front(s), c, "hours");
      CallsThenSpace(None, Front(s), c, "minutes");
    }
  }

  lemma SpaceFirst(s: string, token: string)
    requires s != "" && Space(s[0]) && token != "" && !Space(token[0])
    ensures NoCall(None, s, token) <==> NoCall(None, s[1..], token)
  {
    OtherHead(None, s, token);
    CallsAlike(Some(s[0]), None, s[1..], token);
    hide CallHead;
  }

  lemma CallsAlike(a: Option<char>, b: Option<char>, s: string, token: string)
    requires Behind(a) == Behind(b)
    ensures CallHead(a, s, token) == CallHead(b, s, token)
  {
    hide Argument;
  }

  lemma {:induction false} StripCallsNothing(text: string)
    ensures AllCode(Strip(text), NoCalls) <==> AllCode(text, NoCalls)
    decreases |text|
  {
    hide AllCode, NoCalls;
    forall s | s != ""
      ensures Space(s[0]) ==> (NoCalls(s) <==> NoCalls(s[1..]))
      ensures Space(s[|s| - 1]) ==> (NoCalls(s) <==> NoCalls(Front(s)))
    {
      EndsCallNothing(s);
    }
    assert NoCalls("") by { NothingCalls(); }
    if text != "" {
      if Space(text[0]) {
        StripCallsNothing(text[1..]);
        if AllCode(text, NoCalls) {
          FrontSpace(text, NoCalls);
        }
        if AllCode(text[1..], NoCalls) {
          FrontSpaceBack(text, NoCalls);
        }
      } else if Space(text[|text| - 1]) {
        StripCallsNothing(Front(text));
        if AllCode(text, NoCalls) {
          BackSpace(text, NoCalls);
        }
        if AllCode(Front(text), NoCalls) {
          BackSpaceBack(text, NoCalls);
        }
      }
    }
  }

  lemma NothingCalls()
    ensures NoCalls("")
  {
  }

  function InSeconds(s: string): string { Seconds(None, s) }
  function SaidAfter(s: string): string { InSeconds(Canonical(s)) }
  function SaidBefore(s: string): string { InSeconds(Sized(s)) }

  lemma {:induction false} RunsKeepSeconds(text: string)
    requires AllCode(text, Separated)
    ensures MapOutside(text, SaidAfter) == MapOutside(text, SaidBefore)
    decreases |text|
  {
    hide Separated, Seconds, Canonical, Sized;
    if text != "" && !Quote(text[0]) {
      RulesKeepSeconds(text[..CodeLength(text)]);
      RunsKeepSeconds(text[CodeLength(text)..]);
    } else if text != "" {
      RunsKeepSeconds(text[LiteralLength(text)..]);
    }
  }

  // Folding changes nothing a whole text says in seconds.
  lemma TextKeepsSeconds(text: string)
    requires AllCode(text, Separated)
    ensures MapOutside(MapOutside(text, Canonical), InSeconds) == MapOutside(MapOutside(text, Sized), InSeconds)
  {
    hide AllCode, MapOutside, Separated, InSeconds, Canonical, Sized;
    MinutesIsOne(text);
    SizedIsOne(text);
    StepsAreOne(text, Canonical, InSeconds, SaidAfter);
    StepsAreOne(text, Sized, InSeconds, SaidBefore);
    RunsKeepSeconds(text);
  }

  // No run of code calls a duration directly on one whose rule runs no sooner.
  predicate Prompt(s: string) { !Late(0, None, Sized(s)) }

  lemma {:induction false} RunsSettle(text: string)
    requires AllCode(text, Separated)
    ensures AllCode(MapOutside(text, Canonical), NoCalls) <==> AllCode(text, Prompt)
    decreases |text|
  {
    hide Separated, NoCalls, Prompt, Canonical;
    if text != "" {
      var n := if Quote(text[0]) then LiteralLength(text) else CodeLength(text);
      var head, rest := text[..n], text[n..];
      RunsSettle(rest);
      var after := MapOutside(rest, Canonical);
      if Quote(text[0]) {
        LiteralAll(text, after, NoCalls);
      } else {
        assert Code(head);
        MinutesIsOne(text);
        AfterCode(rest, Canonical);
        CodeAll(Canonical(head), after, NoCalls);
        RunIsPrompt(head);
      }
    }
  }

  lemma RunIsPrompt(s: string)
    requires Separated(s)
    ensures NoCalls(Canonical(s)) <==> Prompt(s)
  {
    hide Separated, NoCalls, Canonical, Late;
    RunSettles(s);
  }

  // A text's canonical form is its own canonical form exactly when no duration is called directly on
  // a duration whose rule runs no sooner: days on any, hours on hours or minutes, minutes on minutes.
  lemma SettlesAtOnce(text: string)
    requires AllCode(text, Separated)
    ensures Apply(Apply(text)) == Apply(text) <==> AllCode(text, Prompt)
  {
    hide AllCode, MapOutside, Strip, Separated, Prompt, Canonical, NoCalls, Apply;
    CanonicalAgain(text);
    ApplyIsCanonical(text);
    StripCallsNothing(MapOutside(text, Canonical));
    RunsSettle(text);
  }
}
