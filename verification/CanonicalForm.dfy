// The one spelling a predicate's text is brought to before it is stored or compared: whitespace
// collapsed, `.length` written `.size`, a duration called on a whole number folded to seconds, all
// outside string literals.
module CanonicalForm {
  import opened Wrappers
  import opened ExpressionText
  import opened LiteralRuns

  // ----- The rules -----

  predicate WordChar(c: char) { Alnum(c) || c == '_' }

  function DropSpaces(s: string): (r: string)
    ensures |r| <= |s| && (r != "" ==> !Space(r[0]))
    ensures s != "" && Space(s[0]) ==> |r| < |s|
  {
    if s != "" && Space(s[0]) then DropSpaces(s[1..]) else s
  }

  function Collapse(s: string): string
    decreases |s|
  {
    if s == "" then ""
    else if Space(s[0]) then " " + Collapse(DropSpaces(s))
    else [s[0]] + Collapse(s[1..])
  }

  // `.length` at the front of a text, at a word's end.
  predicate LengthHead(s: string) {
    |s| >= 7 && s[..7] == ".length" && (|s| == 7 || !WordChar(s[7]))
  }

  function Sizes(s: string): string
    decreases |s|
  {
    if s == "" then ""
    else if LengthHead(s) then ".size" + Sizes(s[7..])
    else [s[0]] + Sizes(s[1..])
  }

  function DigitRun(s: string): (n: nat)
    ensures n <= |s| && Digits(s[..n])
    ensures n < |s| ==> !Digit(s[n])
  {
    if s == "" || !Digit(s[0]) then 0
    else
      assert s[..1 + DigitRun(s[1..])] == [s[0]] + s[1..][..DigitRun(s[1..])];
      1 + DigitRun(s[1..])
  }

  // How much of a text was read, and the number it says.
  datatype Reading = Reading(length: nat, value: nat)

  // A whole number and a closing bracket, spaced as they may be: how long that is, and the number.
  function Argument(s: string): (call: Option<Reading>)
    ensures call.Some? ==> 0 < call.value.length <= |s| && s[call.value.length - 1] == ')'
  {
    var inner := DropSpaces(s);
    var n := DigitRun(inner);
    var tail := DropSpaces(inner[n..]);
    if n == 0 || tail == "" || tail[0] != ')' then None
    else
      TailOf(s);
      Some(Reading(|s| - |tail| + 1, NatOf(inner[..n])))
  }

  // A duration called on a whole number at the front of a text, not behind a word or a dot: the
  // length of the call and the number.
  function CallHead(before: Option<char>, s: string, token: string): (call: Option<Reading>)
    ensures call.Some? ==> |token| < call.value.length <= |s| && s[call.value.length - 1] == ')' && s[|token|] == '('
  {
    if (before.Some? && (WordChar(before.value) || before.value == '.')) || |s| <= |token| + 1 then None
    else if s[..|token|] != token || s[|token|] != '(' then None
    else
      var argument := Argument(s[|token| + 1..]);
      if argument.None? then None else Some(Reading(|token| + 1 + argument.value.length, argument.value.value))
  }

  lemma TailOf(s: string)
    ensures var inner := DropSpaces(s); var tail := DropSpaces(inner[DigitRun(inner)..]);
            |tail| <= |s| && (tail != "" ==> tail[0] == s[|s| - |tail|])
  {
    hide DigitRun;
    var inner := DropSpaces(s);
    DropsToTail(s);
    DropsToTail(inner[DigitRun(inner)..]);
  }

  lemma {:induction false} DropsToTail(s: string)
    ensures DropSpaces(s) == s[|s| - |DropSpaces(s)|..]
  {
    if s != "" && Space(s[0]) {
      DropsToTail(s[1..]);
    }
  }

  function Scale(before: Option<char>, s: string, token: string, seconds: nat): string
    decreases |s|
  {
    if s == "" then ""
    else
      var call := CallHead(before, s, token);
      if call.Some? then Numeral(call.value.value * seconds) + Scale(Some(')'), s[call.value.length..], token, seconds)
      else [s[0]] + Scale(Some(s[0]), s[1..], token, seconds)
  }

  function Days(s: string): string { Scale(None, s, "days", 86400) }
  function Hours(s: string): string { Scale(None, s, "hours", 3600) }
  function Minutes(s: string): string { Scale(None, s, "minutes", 60) }

  // What the rules, in their order, make of one run of code.
  function Canonical(s: string): string { Minutes(Hours(Days(Sizes(Collapse(s))))) }

  // The rules in their order, each over the whole text, then the ends stripped.
  function Apply(text: string): string {
    Strip(MapOutside(MapOutside(MapOutside(MapOutside(MapOutside(text, Collapse), Sizes), Days), Hours), Minutes))
  }

  // ----- What each rule leaves of a run of code -----

  lemma {:induction false} CollapseIsCode(s: string)
    requires forall c :: c in s ==> !Quote(c)
    ensures forall c :: c in Collapse(s) ==> !Quote(c)
    ensures s != "" ==> Collapse(s) != ""
    decreases |s|
  {
    if s != "" {
      DropsToTail(s);
      if Space(s[0]) {
        CollapseIsCode(DropSpaces(s));
      } else {
        CollapseIsCode(s[1..]);
      }
    }
  }

  lemma {:induction false} SizesIsCode(s: string)
    requires forall c :: c in s ==> !Quote(c)
    ensures forall c :: c in Sizes(s) ==> !Quote(c)
    ensures s != "" ==> Sizes(s) != ""
    decreases |s|
  {
    if s != "" {
      SizesIsCode(if LengthHead(s) then s[7..] else s[1..]);
    }
  }

  lemma {:induction false} ScaleIsCode(before: Option<char>, s: string, token: string, seconds: nat)
    requires forall c :: c in s ==> !Quote(c)
    ensures forall c :: c in Scale(before, s, token, seconds) ==> !Quote(c)
    ensures s != "" ==> Scale(before, s, token, seconds) != ""
    decreases |s|
  {
    hide CallHead;
    if s != "" {
      var call := CallHead(before, s, token);
      if call.Some? {
        ScaleIsCode(Some(')'), s[call.value.length..], token, seconds);
        assert forall c :: c in Numeral(call.value.value * seconds) ==> Digit(c);
      } else {
        ScaleIsCode(Some(s[0]), s[1..], token, seconds);
      }
    }
  }

  lemma RulesKeepCode()
    ensures KeepsCode(Collapse) && KeepsCode(Sizes) && KeepsCode(Days) && KeepsCode(Hours) && KeepsCode(Minutes)
  {
    hide Collapse, Sizes, Scale;
    forall s | Code(s) ensures Code(Collapse(s)) { CollapseIsCode(s); }
    forall s | Code(s) ensures Code(Sizes(s)) { SizesIsCode(s); }
    forall s | Code(s) ensures Code(Days(s)) { ScaleIsCode(None, s, "days", 86400); }
    forall s | Code(s) ensures Code(Hours(s)) { ScaleIsCode(None, s, "hours", 3600); }
    forall s | Code(s) ensures Code(Minutes(s)) { ScaleIsCode(None, s, "minutes", 60); }
  }

  // The rules over the whole text are one rewrite of each run of code.
  lemma ApplyIsCanonical(text: string)
    ensures Apply(text) == Strip(MapOutside(text, Canonical))
  {
    hide Collapse, Sizes, Scale, MapOutside, Strip, Days, Hours, Minutes, KeepsCode;
    RulesKeepCode();
    SizedIsOne(text);
    DaysIsOne(text);
    HoursIsOne(text);
    MinutesIsOne(text);
  }

  function Sized(s: string): string { Sizes(Collapse(s)) }
  function WithDays(s: string): string { Days(Sized(s)) }
  function WithHours(s: string): string { Hours(WithDays(s)) }

  lemma SizedIsOne(text: string)
    ensures KeepsCode(Sized) && MapOutside(MapOutside(text, Collapse), Sizes) == MapOutside(text, Sized)
  {
    hide Collapse, Sizes, MapOutside;
    RulesKeepCode();
    BothKeepCode(Collapse, Sizes, Sized);
    StepsAreOne(text, Collapse, Sizes, Sized);
  }

  lemma DaysIsOne(text: string)
    ensures KeepsCode(WithDays) && MapOutside(MapOutside(text, Sized), Days) == MapOutside(text, WithDays)
  {
    hide Sized, Days, MapOutside;
    RulesKeepCode();
    SizedIsOne(text);
    BothKeepCode(Sized, Days, WithDays);
    StepsAreOne(text, Sized, Days, WithDays);
  }

  lemma HoursIsOne(text: string)
    ensures KeepsCode(WithHours) && MapOutside(MapOutside(text, WithDays), Hours) == MapOutside(text, WithHours)
  {
    hide WithDays, Hours, MapOutside;
    RulesKeepCode();
    DaysIsOne(text);
    BothKeepCode(WithDays, Hours, WithHours);
    StepsAreOne(text, WithDays, Hours, WithHours);
  }

  lemma MinutesIsOne(text: string)
    ensures KeepsCode(Canonical) && MapOutside(MapOutside(text, WithHours), Minutes) == MapOutside(text, Canonical)
  {
    hide Minutes, MapOutside, Collapse, Sizes, Days, Hours;
    RulesKeepCode();
    HoursIsOne(text);
    BothKeepCode(WithHours, Minutes, Canonical);
    StepsAreOne(text, WithHours, Minutes, Canonical);
  }

  // ----- Settled code -----

  // Single spaces and no other whitespace.
  predicate Collapsed(s: string) {
    forall i :: 0 <= i < |s| && Space(s[i]) ==> s[i] == ' ' && (i + 1 < |s| ==> !Space(s[i + 1]))
  }

  // No `.length` at a word's end.
  predicate NoLength(s: string) {
    s == "" || (!LengthHead(s) && NoLength(s[1..]))
  }

  // No duration called on a whole number, after the character `before`.
  predicate NoCall(before: Option<char>, s: string, token: string)
    decreases |s|
  {
    s == "" || (CallHead(before, s, token).None? && NoCall(Some(s[0]), s[1..], token))
  }

  predicate NoCalls(s: string) { NoCall(None, s, "days") && NoCall(None, s, "hours") && NoCall(None, s, "minutes") }

  lemma {:induction false} CollapseCollapses(s: string)
    ensures Collapsed(Collapse(s))
    ensures s != "" ==> Collapse(s) != "" && (Collapse(s)[0] == if Space(s[0]) then ' ' else s[0])
    decreases |s|
  {
    if s == "" {
    } else if Space(s[0]) {
      CollapseCollapses(DropSpaces(s));
    } else {
      CollapseCollapses(s[1..]);
    }
  }

  lemma {:induction false} CollapsedStays(s: string)
    requires Collapsed(s)
    ensures Collapse(s) == s
    decreases |s|
  {
    if s != "" {
      assert s == [s[0]] + s[1..];
      assert Collapsed(s[1..]) by {
        forall i | 0 <= i < |s[1..]| && Space(s[1..][i])
          ensures s[1..][i] == ' ' && (i + 1 < |s[1..]| ==> !Space(s[1..][i + 1]))
        {
          assert Space(s[i + 1]);
        }
      }
      if Space(s[0]) {
        assert DropSpaces(s) == DropSpaces(s[1..]) == s[1..];
      }
      CollapsedStays(s[1..]);
    }
  }

  lemma CollapsedFrom(head: char, rest: string)
    requires Collapsed(rest) && (Space(head) ==> head == ' ' && (rest != "" ==> !Space(rest[0])))
    ensures Collapsed([head] + rest)
  {
    var s := [head] + rest;
    forall i | 0 <= i < |s| && Space(s[i]) ensures s[i] == ' ' && (i + 1 < |s| ==> !Space(s[i + 1])) {
      if i > 0 {
        assert s[i] == rest[i - 1];
        assert i + 1 < |s| ==> s[i + 1] == rest[i];
      }
    }
  }

  lemma CollapsedTail(s: string)
    requires Collapsed(s) && s != ""
    ensures Collapsed(s[1..])
  {
    forall i | 0 <= i < |s[1..]| && Space(s[1..][i])
      ensures s[1..][i] == ' ' && (i + 1 < |s[1..]| ==> !Space(s[1..][i + 1]))
    {
      assert Space(s[i + 1]);
    }
  }

  lemma {:induction false} CollapsedDrop(s: string, n: nat)
    requires Collapsed(s) && n <= |s|
    ensures Collapsed(s[n..])
  {
    if n > 0 {
      CollapsedTail(s);
      CollapsedDrop(s[1..], n - 1);
      assert s[1..][n - 1..] == s[n..];
    }
  }

  lemma {:induction false} CollapsedBoth(a: string, b: string)
    requires (forall c :: c in a ==> !Space(c)) && Collapsed(b)
    ensures Collapsed(a + b)
  {
    if a == "" {
      assert a + b == b;
    } else {
      CollapsedBoth(a[1..], b);
      assert a[0] in a;
      CollapsedFrom(a[0], a[1..] + b);
      assert a + b == [a[0]] + (a[1..] + b);
    }
  }

  lemma {:induction false} SizesCollapsed(s: string)
    requires Collapsed(s)
    ensures Collapsed(Sizes(s))
    ensures s != "" ==> Sizes(s) != "" && Sizes(s)[0] == s[0]
    decreases |s|
  {
    if s == "" {
    } else if LengthHead(s) {
      CollapsedDrop(s, 7);
      SizesCollapsed(s[7..]);
      CollapsedBoth(".size", Sizes(s[7..]));
      assert s[0] == s[..7][0] == '.';
    } else {
      CollapsedTail(s);
      SizesCollapsed(s[1..]);
      CollapsedFrom(s[0], Sizes(s[1..]));
      assert s[1..] != "" ==> s[1..][0] == s[1];
    }
  }

  lemma {:induction false} ScaleCollapsed(before: Option<char>, s: string, token: string, seconds: nat)
    requires Collapsed(s)
    ensures Collapsed(Scale(before, s, token, seconds))
    ensures s != "" && CallHead(before, s, token).None? ==>
              Scale(before, s, token, seconds) != "" && Scale(before, s, token, seconds)[0] == s[0]
    ensures s != "" && CallHead(before, s, token).Some? ==>
              Scale(before, s, token, seconds) != "" && !Space(Scale(before, s, token, seconds)[0])
    decreases |s|
  {
    hide CallHead;
    if s != "" {
      var call := CallHead(before, s, token);
      if call.Some? {
        CollapsedDrop(s, call.value.length);
        ScaleCollapsed(Some(')'), s[call.value.length..], token, seconds);
        var digits := Numeral(call.value.value * seconds);
        assert forall c :: c in digits ==> Digit(c);
        assert digits[0] in digits;
        CollapsedBoth(digits, Scale(Some(')'), s[call.value.length..], token, seconds));
      } else {
        CollapsedTail(s);
        ScaleCollapsed(Some(s[0]), s[1..], token, seconds);
        assert s[1..] != "" ==> s[1..][0] == s[1];
        CollapsedFrom(s[0], Scale(Some(s[0]), s[1..], token, seconds));
      }
    }
  }

  predicate StartsWith(s: string, head: string) { |head| <= |s| && s[..|head|] == head }

  // What the rules print of a word without a dot they read as that word.
  lemma {:induction false} SizesPrefix(s: string, w: string)
    requires StartsWith(Sizes(s), w) && '.' !in w
    ensures StartsWith(s, w) && Sizes(s) == w + Sizes(s[|w|..])
    decreases |w|
  {
    if w != "" {
      assert w[0] == Sizes(s)[0] && w[0] in w;
      assert !LengthHead(s);
      assert Sizes(s)[1..] == Sizes(s[1..]);
      assert Sizes(s[1..])[..|w| - 1] == w[1..];
      SizesPrefix(s[1..], w[1..]);
      assert s[1..][|w| - 1..] == s[|w|..];
      assert w == [w[0]] + w[1..];
      assert s[..|w|] == [s[0]] + s[1..][..|w| - 1];
    }
  }

  lemma {:induction false} SizesFirst(s: string)
    requires s != ""
    ensures Sizes(s) != "" && Sizes(s)[0] == s[0]
  {
    if LengthHead(s) {
      assert s[0] == s[..7][0] == '.';
    }
  }

  // A character the rule keeps starts no `.length` that was not there.
  lemma NoNewLength(s: string, out: string)
    requires s != "" && !LengthHead(s) && out == [s[0]] + Sizes(s[1..])
    ensures !LengthHead(out)
  {
    var tail := Sizes(s[1..]);
    if StartsWith(tail, "length") && s[0] == '.' {
      SizesPrefix(s[1..], "length");
      assert s[1..][6..] == s[7..];
      assert s[..7] == [s[0]] + s[1..][..6] == ".length";
      assert |s| > 7 && WordChar(s[7]);
      SizesFirst(s[7..]);
      assert out[7] == tail[6] == Sizes(s[7..])[0] == s[7];
    } else {
      HeadOnly(s[0], tail);
    }
  }

  lemma HeadOnly(c: char, tail: string)
    requires c != '.' || !StartsWith(tail, "length")
    ensures !LengthHead([c] + tail)
  {
    var out := [c] + tail;
    assert |out| >= 7 ==> out[..7] == [c] + tail[..6];
    assert ".length"[0] == '.' && ".length"[1..] == "length";
    assert |out| >= 7 ==> out[..7][1..] == tail[..6];
  }

  // After the rule no `.length` is left: what it writes makes none.
  lemma {:induction false} SizesLeavesNoLength(s: string)
    ensures NoLength(Sizes(s))
    decreases |s|
  {
    if s == "" {
    } else if LengthHead(s) {
      SizesLeavesNoLength(s[7..]);
      SizeThen(Sizes(s[7..]));
    } else {
      SizesLeavesNoLength(s[1..]);
      NoNewLength(s, Sizes(s));
      assert Sizes(s)[1..] == Sizes(s[1..]);
    }
  }

  lemma SizeThen(rest: string)
    requires NoLength(rest)
    ensures NoLength(".size" + rest)
  {
    hide LengthHead;
    NoLengthFrom('e', rest);
    assert ['e'] + rest == "e" + rest;
    NoLengthFrom('z', "e" + rest);
    assert ['z'] + ("e" + rest) == "ze" + rest;
    NoLengthFrom('i', "ze" + rest);
    assert ['i'] + ("ze" + rest) == "ize" + rest;
    NoLengthFrom('s', "ize" + rest);
    assert ['s'] + ("ize" + rest) == "size" + rest;
    NoLengthFrom('.', "size" + rest);
    assert ['.'] + ("size" + rest) == ".size" + rest;
  }

  lemma NoLengthFrom(c: char, rest: string)
    requires NoLength(rest) && (c == '.' ==> rest != "" && rest[0] != 'l')
    ensures NoLength([c] + rest)
  {
    assert "length"[0] == 'l';
    HeadOnly(c, rest);
    assert ([c] + rest)[1..] == rest;
  }

  lemma {:induction false} NoLengthStays(s: string)
    requires NoLength(s)
    ensures Sizes(s) == s
    decreases |s|
  {
    if s != "" {
      NoLengthStays(s[1..]);
    }
  }

  lemma {:induction false} NoCallStays(before: Option<char>, s: string, token: string, seconds: nat)
    requires NoCall(before, s, token)
    ensures Scale(before, s, token, seconds) == s
    decreases |s|
  {
    hide CallHead;
    if s != "" {
      NoCallStays(Some(s[0]), s[1..], token, seconds);
    }
  }

  lemma FirstKept(before: Option<char>, s: string, token: string, seconds: nat, w: string)
    requires StartsWith(Scale(before, s, token, seconds), w) && w != "" && !Digit(w[0])
    ensures s != "" && s[0] == w[0]
    ensures var tail := Scale(Some(s[0]), s[1..], token, seconds);
            Scale(before, s, token, seconds) == [s[0]] + tail && StartsWith(tail, w[1..])
  {
    hide CallHead, Numeral;
    var out := Scale(before, s, token, seconds);
    assert out[0] == w[0];
    assert CallHead(before, s, token).None?;
    assert out[1..] == Scale(Some(s[0]), s[1..], token, seconds);
    assert out[1..][..|w| - 1] == w[1..];
  }

  lemma {:induction false} ScalePrefix(before: Option<char>, s: string, token: string, seconds: nat, w: string)
    requires StartsWith(Scale(before, s, token, seconds), w) && forall c :: c in w ==> !Digit(c)
    ensures StartsWith(s, w)
    ensures w != "" ==> Scale(before, s, token, seconds) == w + Scale(Some(w[|w| - 1]), s[|w|..], token, seconds)
    decreases |w|
  {
    if w != "" {
      hide Scale;
      assert w[0] in w && forall c :: c in w[1..] ==> c in w;
      FirstKept(before, s, token, seconds, w);
      ScalePrefix(Some(s[0]), s[1..], token, seconds, w[1..]);
      assert w == [w[0]] + w[1..] && s[..|w|] == [s[0]] + s[1..][..|w| - 1];
      assert s[1..][|w| - 1..] == s[|w|..];
      if |w| > 1 {
        Rejoined(w, Scale(Some(w[|w| - 1]), s[|w|..], token, seconds));
      }
    }
  }

  // Behind a word a rule keeps the next character.
  lemma AfterWord(c: char, s: string, token: string, seconds: nat)
    requires WordChar(c) && s != ""
    ensures Scale(Some(c), s, token, seconds) != "" && Scale(Some(c), s, token, seconds)[0] == s[0]
  {
  }

  lemma NoScaledLength(s: string, token: string, seconds: nat, out: string)
    requires s != "" && !LengthHead(s) && out == [s[0]] + Scale(Some(s[0]), s[1..], token, seconds)
    ensures !LengthHead(out)
  {
    hide CallHead;
    var tail := Scale(Some(s[0]), s[1..], token, seconds);
    if StartsWith(tail, "length") && s[0] == '.' {
      ScalePrefix(Some(s[0]), s[1..], token, seconds, "length");
      assert s[1..][6..] == s[7..];
      assert s[..7] == [s[0]] + s[1..][..6] == ".length";
      assert |s| > 7 && WordChar(s[7]) && "length"[5] == 'h';
      AfterWord('h', s[7..], token, seconds);
      assert out[7] == tail[6] == Scale(Some('h'), s[7..], token, seconds)[0] == s[7];
    } else {
      HeadOnly(s[0], tail);
    }
  }

  lemma {:induction false} NoLengthAfterDigits(digits: string, rest: string)
    requires Digits(digits) && NoLength(rest)
    ensures NoLength(digits + rest)
  {
    hide LengthHead;
    if digits == "" {
      assert digits + rest == rest;
    } else {
      assert digits[0] in digits && forall c :: c in digits[1..] ==> c in digits;
      NoLengthAfterDigits(digits[1..], rest);
      NoLengthFrom(digits[0], digits[1..] + rest);
      assert [digits[0]] + (digits[1..] + rest) == digits + rest;
    }
  }

  lemma {:induction false} NoLengthDrop(s: string, n: nat)
    requires NoLength(s) && n <= |s|
    ensures NoLength(s[n..])
  {
    if n > 0 {
      NoLengthDrop(s[1..], n - 1);
      assert s[1..][n - 1..] == s[n..];
    }
  }

  // A fold writes digits, and no `.length` comes of them.
  lemma {:induction false} ScaleKeepsNoLength(before: Option<char>, s: string, token: string, seconds: nat)
    requires NoLength(s)
    ensures NoLength(Scale(before, s, token, seconds))
    decreases |s|
  {
    hide LengthHead, CallHead;
    if s != "" {
      var call := CallHead(before, s, token);
      if call.Some? {
        NoLengthDrop(s, call.value.length);
        ScaleKeepsNoLength(Some(')'), s[call.value.length..], token, seconds);
        NoLengthAfterDigits(Numeral(call.value.value * seconds),
            Scale(Some(')'), s[call.value.length..], token, seconds));
      } else {
        ScaleKeepsNoLength(Some(s[0]), s[1..], token, seconds);
        NoScaledLength(s, token, seconds, Scale(before, s, token, seconds));
        assert Scale(before, s, token, seconds)[1..] == Scale(Some(s[0]), s[1..], token, seconds);
      }
    }
  }

  // ----- Whole texts -----

  predicate Tidy(s: string) { Collapsed(s) && NoLength(s) }

  lemma CanonicalIsTidy(s: string)
    ensures Tidy(Canonical(s))
  {
    hide Collapse, Sizes, Scale, Collapsed, NoLength;
    var sized := Sizes(Collapse(s));
    CollapseCollapses(s);
    SizesCollapsed(Collapse(s));
    SizesLeavesNoLength(Collapse(s));
    ScaleCollapsed(None, sized, "days", 86400);
    ScaleKeepsNoLength(None, sized, "days", 86400);
    ScaleCollapsed(None, Days(sized), "hours", 3600);
    ScaleKeepsNoLength(None, Days(sized), "hours", 3600);
    ScaleCollapsed(None, Hours(Days(sized)), "minutes", 60);
    ScaleKeepsNoLength(None, Hours(Days(sized)), "minutes", 60);
  }

  lemma {:induction false} FrontNoLength(s: string)
    requires NoLength(s) && s != "" && Space(s[|s| - 1])
    ensures NoLength(Front(s))
  {
    if |s| > 1 {
      FrontNoLength(s[1..]);
      assert Front(s)[1..] == Front(s[1..]);
      assert |s| > 7 ==> Front(s)[..7] == s[..7];
      if |s| == 8 {
        assert s[7] == s[|s| - 1];
      }
    }
  }

  lemma TidyTrims(s: string)
    requires Tidy(s) && s != ""
    ensures Tidy(s[1..])
    ensures Space(s[|s| - 1]) ==> Tidy(Front(s))
  {
    hide NoLength;
    CollapsedTail(s);
    NoLengthDrop(s, 1);
    if Space(s[|s| - 1]) {
      FrontNoLength(s);
      forall i | 0 <= i < |Front(s)| && Space(Front(s)[i])
        ensures Front(s)[i] == ' ' && (i + 1 < |Front(s)| ==> !Space(Front(s)[i + 1]))
      {
        assert Space(s[i]);
      }
    }
  }

  // Whatever the text, its canonical form has single spaces, no `.length` and bare ends.
  lemma ApplyIsTidy(text: string)
    ensures AllCode(Apply(text), Tidy) && Strip(Apply(text)) == Apply(text)
  {
    hide Strip, MapOutside, Tidy, Canonical, AllCode, Apply;
    ApplyIsCanonical(text);
    MinutesIsOne(text);
    forall s ensures Tidy(Canonical(s)) { CanonicalIsTidy(s); }
    MappedAll(text, Canonical, Tidy);
    forall s | Tidy(s) && s != "" ensures Tidy(s[1..]) && (Space(s[|s| - 1]) ==> Tidy(Front(s))) { TidyTrims(s); }
    StrippedAll(MapOutside(text, Canonical), Tidy);
    StripTwice(MapOutside(text, Canonical));
  }

  // ----- A second time -----

  function Parens(s: string): nat {
    if s == "" then 0 else (if s[0] == '(' then 1 else 0) + Parens(s[1..])
  }

  lemma {:induction false} ParensBoth(a: string, b: string)
    ensures Parens(a + b) == Parens(a) + Parens(b)
    decreases |a|
  {
    if a == "" {
      assert a + b == b;
    } else {
      assert (a + b)[1..] == a[1..] + b;
      ParensBoth(a[1..], b);
    }
  }

  lemma {:induction false} NoParens(s: string)
    requires '(' !in s
    ensures Parens(s) == 0
  {
    if s != "" {
      assert s[0] in s && forall c :: c in s[1..] ==> c in s;
      NoParens(s[1..]);
    }
  }

  // A call holds a bracket, and the number it becomes does not.
  lemma CallParens(before: Option<char>, s: string, token: string, n: nat)
    requires CallHead(before, s, token).Some? && n == CallHead(before, s, token).value.length
    ensures Parens(s) >= 1 + Parens(s[n..])
  {
    var k := |token|;
    assert s[k] == '(';
    assert s == s[..k] + ("(" + s[k + 1..n] + s[n..]);
    ParensBoth(s[..k], "(" + s[k + 1..n] + s[n..]);
    ParensBoth("(" + s[k + 1..n], s[n..]);
    ParensBoth("(", s[k + 1..n]);
    assert Parens("(") == 1;
  }

  lemma {:induction false} ScaleParens(before: Option<char>, s: string, token: string, seconds: nat)
    ensures Parens(Scale(before, s, token, seconds)) <= Parens(s)
    ensures !NoCall(before, s, token) ==> Parens(Scale(before, s, token, seconds)) < Parens(s)
    decreases |s|
  {
    hide CallHead;
    if s != "" {
      var call := CallHead(before, s, token);
      if call.Some? {
        var digits, rest := Numeral(call.value.value * seconds), s[call.value.length..];
        ScaleParens(Some(')'), rest, token, seconds);
        CallParens(before, s, token, call.value.length);
        assert forall c :: c in digits ==> Digit(c);
        NoParens(digits);
        ParensBoth(digits, Scale(Some(')'), rest, token, seconds));
      } else {
        ScaleParens(Some(s[0]), s[1..], token, seconds);
        ParensBoth([s[0]], Scale(Some(s[0]), s[1..], token, seconds));
        assert Parens([s[0]]) == if s[0] == '(' then 1 else 0;
      }
    }
  }

  // On tidy code the rules do nothing but fold, and every fold takes a bracket away.
  lemma TidyFolds(s: string)
    requires Tidy(s)
    ensures NoCalls(s) ==> Canonical(s) == s
    ensures Parens(Canonical(s)) <= Parens(s)
    ensures !NoCalls(s) ==> Parens(Canonical(s)) < Parens(s)
  {
    hide Collapse, Sizes, Scale, Parens, Collapsed, NoLength, NoCall;
    CollapsedStays(s);
    NoLengthStays(s);
    ScaleParens(None, s, "days", 86400);
    ScaleParens(None, Days(s), "hours", 3600);
    ScaleParens(None, Hours(Days(s)), "minutes", 60);
    if NoCall(None, s, "days") {
      NoCallStays(None, s, "days", 86400);
      if NoCall(None, s, "hours") {
        NoCallStays(None, s, "hours", 3600);
        if NoCall(None, s, "minutes") {
          NoCallStays(None, s, "minutes", 60);
        }
      }
    }
  }

  lemma {:induction false} MapParens(text: string)
    requires AllCode(text, Tidy)
    ensures Parens(MapOutside(text, Canonical)) <= Parens(text)
    ensures !AllCode(text, NoCalls) ==> Parens(MapOutside(text, Canonical)) < Parens(text)
    ensures AllCode(text, NoCalls) ==> MapOutside(text, Canonical) == text
    decreases |text|
  {
    hide Canonical, NoCalls, Tidy, Parens;
    if text != "" {
      var n := if Quote(text[0]) then LiteralLength(text) else CodeLength(text);
      var head, rest := text[..n], text[n..];
      assert text == head + rest;
      MapParens(rest);
      ParensBoth(head, rest);
      if Quote(text[0]) {
        ParensBoth(head, MapOutside(rest, Canonical));
      } else {
        TidyFolds(head);
        ParensBoth(Canonical(head), MapOutside(rest, Canonical));
      }
    } else {
      assert Parens("") == 0 by { NoParens(""); }
    }
  }

  lemma {:induction false} StripParens(text: string)
    ensures Parens(Strip(text)) <= Parens(text)
    decreases |text|
  {
    if text != "" {
      if Space(text[0]) {
        StripParens(text[1..]);
      } else if Space(text[|text| - 1]) {
        StripParens(Front(text));
        ParensBoth(Front(text), [text[|text| - 1]]);
        assert text == Front(text) + [text[|text| - 1]];
      }
    }
  }

  // A canonical form is its own canonical form exactly when it calls no duration on a whole number:
  // a call folded last can leave one whose rule has already run.
  lemma CanonicalAgain(text: string)
    ensures Apply(Apply(text)) == Apply(text) <==> AllCode(Apply(text), NoCalls)
  {
    hide Apply, MapOutside, Strip, AllCode, Canonical, NoCalls, Tidy, Parens;
    var once := Apply(text);
    ApplyIsTidy(text);
    ApplyIsCanonical(once);
    MapParens(once);
    StripParens(MapOutside(once, Canonical));
  }

  // ----- A call folded too late -----

  lemma {:induction false} DigitsThen(digits: string, rest: string)
    requires Digits(digits) && (rest == "" || !Digit(rest[0]))
    ensures DigitRun(digits + rest) == |digits|
  {
    if digits == "" {
      assert digits + rest == rest;
    } else {
      assert digits[0] in digits && forall c :: c in digits[1..] ==> c in digits;
      assert (digits + rest)[1..] == digits[1..] + rest;
      DigitsThen(digits[1..], rest);
    }
  }

  // A duration called on a number is seen as such.
  lemma CallFound(before: Option<char>, s: string, token: string, digits: string, tail: string)
    requires before.None? || before == Some('(')
    requires Digits(digits) && digits != "" && tail != "" && tail[0] == ')'
    requires |s| > |token| + 1 && s[..|token|] == token && s[|token|] == '(' && s[|token| + 1..] == digits + tail
    ensures CallHead(before, s, token) == Some(Reading(|s| - |tail| + 1, NatOf(digits)))
  {
    hide NatOf;
    var inner := digits + tail;
    assert digits[0] in digits && inner[0] == digits[0];
    DigitsThen(digits, tail);
    assert inner[|digits|..] == tail && inner[..|digits|] == digits;
    assert DropSpaces(inner) == inner && DropSpaces(tail) == tail;
    assert Argument(inner) == Some(Reading(|inner| - |tail| + 1, NatOf(digits)));
  }

  lemma CallSeen(before: Option<char>, token: string, n: nat, rest: string)
    requires before.None? || before == Some('(')
    ensures CallHead(before, token + "(" + Numeral(n) + ")" + rest, token)
            == Some(Reading(|token| + |Numeral(n)| + 2, n))
  {
    hide Numeral, CallHead, NatOf;
    var digits, tail := Numeral(n), ")" + rest;
    var s := token + "(" + digits + ")" + rest;
    assert s == token + ("(" + (digits + tail));
    assert s[|token| + 1..] == digits + tail;
    CallFound(before, s, token, digits, tail);
    NatOfNumeral(n);
  }

  lemma OtherHead(before: Option<char>, s: string, token: string)
    requires s != "" && token != "" && s[0] != token[0]
    ensures CallHead(before, s, token).None?
  {
    assert |s| > |token| ==> s[..|token|][0] == s[0];
  }

  lemma {:induction false} NoToken(before: Option<char>, s: string, token: string)
    requires token != "" && token[0] !in s
    ensures NoCall(before, s, token)
    decreases |s|
  {
    if s != "" {
      assert s[0] in s && forall c :: c in s[1..] ==> c in s;
      assert |s| > |token| ==> s[..|token|][0] == s[0];
      NoToken(Some(s[0]), s[1..], token);
    }
  }

  // Text without the token's first letter is copied.
  lemma {:induction false} Copies(before: Option<char>, a: string, rest: string, token: string, seconds: nat)
    requires token != "" && token[0] !in a && a != ""
    ensures Scale(before, a + rest, token, seconds) == a + Scale(Some(a[|a| - 1]), rest, token, seconds)
    decreases |a|
  {
    hide CallHead;
    var s := a + rest;
    assert a[0] in a && s[0] == a[0] && s[1..] == a[1..] + rest;
    OtherHead(before, s, token);
    if |a| > 1 {
      assert forall c :: c in a[1..] ==> c in a;
      Copies(Some(a[0]), a[1..], rest, token, seconds);
      Rejoined(a, Scale(Some(a[|a| - 1]), rest, token, seconds));
    } else {
      assert s[1..] == rest && a == [a[0]];
    }
  }

  lemma Rejoined(a: string, rest: string)
    requires a != ""
    ensures [a[0]] + (a[1..] + rest) == a + rest
  {
  }

  function HoursInDays(n: nat): string { "days(" + ("hours(" + Numeral(n) + ")" + ")") }
  function SecondsInDays(n: nat): string { "days" + "(" + Numeral(n) + ")" + "" }

  lemma DaysPassBy(n: nat)
    ensures Days(HoursInDays(n)) == HoursInDays(n)
  {
    var inner, s := "hours(" + Numeral(n) + ")" + ")", HoursInDays(n);
    assert s[..4] == "days" && s[4] == '(' && s[5..] == inner && inner[0] == 'h';
    assert CallHead(None, s, "days").None?;
    assert forall c :: c in Numeral(n) ==> Digit(c);
    assert s[1..] == "ays(" + inner;
    NoToken(Some('d'), s[1..], "days");
    NoCallStays(None, s, "days", 86400);
  }

  lemma HoursFold(n: nat)
    ensures Hours(HoursInDays(n)) == SecondsInDays(n * 3600)
  {
    hide CallHead, Numeral;
    var inner := "hours" + "(" + Numeral(n) + ")" + ")";
    assert HoursInDays(n) == "days(" + inner;
    Copies(None, "days(", inner, "hours", 3600);
    CallSeen(Some('('), "hours", n, ")");
    assert inner[|Numeral(n)| + 7..] == ")";
    NoToken(Some(')'), ")", "hours");
    NoCallStays(Some(')'), ")", "hours", 3600);
    assert Scale(Some('('), inner, "hours", 3600) == Numeral(n * 3600) + ")";
    assert SecondsInDays(n * 3600) == "days(" + (Numeral(n * 3600) + ")");
  }

  lemma MinutesPassBy(n: nat)
    ensures Minutes(SecondsInDays(n)) == SecondsInDays(n)
  {
    assert forall c :: c in Numeral(n) ==> Digit(c);
    NoToken(None, SecondsInDays(n), "minutes");
    NoCallStays(None, SecondsInDays(n), "minutes", 60);
  }

  lemma {:induction false} PlainIsTidy(s: string)
    requires forall c :: c in s ==> !Space(c) && c != '.'
    ensures Collapse(s) == s && Sizes(s) == s
  {
    assert forall i :: 0 <= i < |s| ==> s[i] in s;
    CollapsedStays(s);
    NoDots(s);
    NoLengthStays(s);
  }

  lemma {:induction false} NoDots(s: string)
    requires '.' !in s
    ensures NoLength(s)
  {
    if s != "" {
      assert s[0] in s && forall c :: c in s[1..] ==> c in s;
      NoDots(s[1..]);
      NoLengthFrom(s[0], s[1..]);
      assert s == [s[0]] + s[1..];
    }
  }

  // Hours called inside days fold after days were folded: the canonical form still calls days on a
  // whole number, and a second pass folds it.
  lemma HoursInDaysAreNotSettled(n: nat)
    ensures Apply(HoursInDays(n)) == SecondsInDays(n * 3600)
    ensures Apply(Apply(HoursInDays(n))) != Apply(HoursInDays(n))
  {
    hide Scale, Collapse, Sizes, CallHead;
    var s, r := HoursInDays(n), SecondsInDays(n * 3600);
    assert forall m :: forall c :: c in Numeral(m) ==> Digit(c);
    assert Code(s) && Code(r) && s[0] == 'd' == r[0] && s[|s| - 1] == ')' == r[|r| - 1];
    PlainIsTidy(s);
    DaysPassBy(n);
    HoursFold(n);
    MinutesPassBy(n * 3600);
    MapCode(s, "", Canonical);
    assert s + "" == s && MapOutside("", Canonical) == "";
    ApplyIsCanonical(s);
    CallSeen(None, "days", n * 3600, "");
    CodeAll(r, "", NoCalls);
    assert r + "" == r;
    CanonicalAgain(s);
  }

  // ----- What is never touched -----

  // Every string literal is in the canonical form as it was written, in its place among the others.
  lemma LiteralsKept(text: string)
    ensures Literals(Apply(text)) == Literals(text)
  {
    hide Strip, MapOutside, Canonical, Literals, Apply;
    ApplyIsCanonical(text);
    MinutesIsOne(text);
    MapKeepsLiterals(text, Canonical);
    StripKeepsLiterals(MapOutside(text, Canonical));
  }

  // A text's characters but its ASCII whitespace; a non-breaking space is one of them.
  function Inked(s: string): string {
    if s == "" then "" else (if Space(s[0]) then "" else [s[0]]) + Inked(s[1..])
  }

  lemma {:induction false} CollapseKeepsInk(s: string)
    ensures Inked(Collapse(s)) == Inked(s)
    decreases |s|
  {
    if s == "" {
    } else if Space(s[0]) {
      DropKeepsInk(s);
      CollapseKeepsInk(DropSpaces(s));
      assert (" " + Collapse(DropSpaces(s)))[1..] == Collapse(DropSpaces(s));
    } else {
      CollapseKeepsInk(s[1..]);
      assert ([s[0]] + Collapse(s[1..]))[1..] == Collapse(s[1..]);
    }
  }

  lemma {:induction false} DropKeepsInk(s: string)
    ensures Inked(DropSpaces(s)) == Inked(s)
  {
    if s != "" && Space(s[0]) {
      DropKeepsInk(s[1..]);
      assert "" + Inked(s[1..]) == Inked(s[1..]);
    }
  }
}
