// The text of a table file as its edits work on it: blocks found by their opening and closing lines, and
// a block replaced in the whole text by a substitution that reads backslashes in what it puts there.
module TableText {
  import opened Wrappers

  // ----- Lines -----

  // A file of whole lines.
  function Text(lines: seq<string>): string {
    if lines == [] then "" else lines[0] + "\n" + Text(lines[1..])
  }

  predicate Lines(lines: seq<string>) { forall i :: 0 <= i < |lines| ==> '\n' !in lines[i] }

  lemma TextHead(a: seq<string>, x: string)
    requires a != []
    ensures Text(a) + x == a[0] + "\n" + (Text(a[1..]) + x)
  {
    assert a[0] + "\n" + Text(a[1..]) + x == a[0] + "\n" + (Text(a[1..]) + x);
  }

  lemma {:induction false} TextBoth(a: seq<string>, b: seq<string>)
    ensures Text(a + b) == Text(a) + Text(b)
  {
    if a == [] {
      assert a + b == b;
    } else {
      TextBoth(a[1..], b);
      assert (a + b)[1..] == a[1..] + b;
      TextHead(a, Text(b));
    }
  }

  lemma TextFrom(lines: seq<string>, k: nat)
    requires k <= |lines|
    ensures Text(lines) == Text(lines[..k]) + Text(lines[k..])
  {
    TextBoth(lines[..k], lines[k..]);
    assert lines == lines[..k] + lines[k..];
  }

  lemma TextOfThree(a: seq<string>, b: seq<string>, c: seq<string>)
    ensures Text(a + b + c) == Text(a) + Text(b) + Text(c)
  {
    TextBoth(a + b, c);
    TextBoth(a, b);
  }

  // ----- Blocks -----

  predicate Blank(c: char) { c == ' ' || '\t' <= c <= '\r' }

  function Indent(line: string): (n: nat)
    ensures n <= |line|
  {
    if line != "" && (line[0] == ' ' || line[0] == '\t') then 1 + Indent(line[1..]) else 0
  }

  predicate Opens(line: string, name: string) {
    line[Indent(line)..] == "value_object \"" + name + "\" do"
  }

  predicate Closes(line: string, indent: string) {
    && |line| >= |indent| + 3 && line[..|indent| + 3] == indent + "end"
    && forall i :: |indent| + 3 <= i < |line| ==> Blank(line[i])
  }

  // The first line from the `k`th on that closes a block indented so.
  function ClosingFrom(lines: seq<string>, indent: string, k: nat): (at: Option<nat>)
    ensures at.Some? ==> k <= at.value < |lines| && Closes(lines[at.value], indent)
    ensures at.Some? ==> forall i :: k <= i < at.value ==> !Closes(lines[i], indent)
    ensures at.None? ==> forall i :: k <= i < |lines| ==> !Closes(lines[i], indent)
    decreases |lines| - k
  {
    if k >= |lines| then None
    else if Closes(lines[k], indent) then Some(k)
    else ClosingFrom(lines, indent, k + 1)
  }

  // A block's first line and its last.
  datatype Block = Block(first: nat, last: nat)

  function IndentOf(line: string): string { line[..Indent(line)] }

  // The block an opening line starts; an opening line no line closes raises.
  function BlockAt(lines: seq<string>, k: nat): (b: Option<Block>)
    requires k < |lines|
    ensures b.Some? ==> b.value.first == k < b.value.last < |lines|
  {
    var closing := ClosingFrom(lines, IndentOf(lines[k]), k + 1);
    if closing.None? then None else Some(Block(k, closing.value))
  }

  predicate AllClosed(lines: seq<string>, name: string) {
    forall k :: 0 <= k < |lines| && Opens(lines[k], name) ==> BlockAt(lines, k).Some?
  }

  predicate Holds(lines: seq<string>, b: Block, matches: string -> bool)
    requires b.last < |lines|
  {
    exists i :: b.first <= i <= b.last && matches(lines[i])
  }

  // The `i`th line opens a block that holds a matching line.
  predicate Picks(lines: seq<string>, name: string, matches: string -> bool, i: nat)
    requires AllClosed(lines, name) && i < |lines|
  {
    Opens(lines[i], name) && Holds(lines, BlockAt(lines, i).value, matches)
  }

  // The first block from the `k`th line on that holds a matching line.
  function Chosen(lines: seq<string>, name: string, matches: string -> bool, k: nat): (b: Option<Block>)
    requires AllClosed(lines, name)
    ensures b.Some? ==> k <= b.value.first < b.value.last < |lines| && Picks(lines, name, matches, b.value.first)
                        && BlockAt(lines, b.value.first) == b
    ensures forall i :: k <= i < (if b.Some? then b.value.first else |lines|) ==> !Picks(lines, name, matches, i)
    decreases |lines| - k
  {
    if k >= |lines| then None
    else if Picks(lines, name, matches, k) then BlockAt(lines, k)
    else Chosen(lines, name, matches, k + 1)
  }

  function BlockLines(lines: seq<string>, b: Block): seq<string>
    requires b.first <= b.last < |lines|
  {
    lines[b.first..b.last + 1]
  }

  // ----- Substitution -----

  predicate OccursAt(text: string, part: string, p: nat) {
    p + |part| <= |text| && text[p..p + |part|] == part
  }

  // Where a part first occurs, from `p` on.
  function FindFrom(text: string, part: string, p: nat): (at: Option<nat>)
    ensures at.Some? ==> p <= at.value && OccursAt(text, part, at.value)
    ensures at.Some? ==> forall q :: p <= q < at.value ==> !OccursAt(text, part, q)
    ensures at.None? ==> forall q :: p <= q ==> !OccursAt(text, part, q)
    decreases |text| - p
  {
    if p > |text| then None
    else if OccursAt(text, part, p) then Some(p)
    else FindFrom(text, part, p + 1)
  }

  // What a backslash and the character after it stand for in a replacement: nothing for a group's number,
  // the part, or the text before or behind it; a named group is none of a plain part's, and raises.
  datatype Stands = For(s: string) | Raises

  function Escape(c: char, next: string, part: string, before: string, behind: string): Stands {
    if '1' <= c <= '9' then For("")
    else if c == '0' || c == '&' then For(part)
    else if c == '`' then For(before)
    else if c == '\'' then For(behind)
    else if c == '\\' then For("\\")
    else if c == 'k' && next != "" && next[0] == '<' then Raises
    else For(['\\', c])
  }

  // A replacement as it is put in.
  function Expanded(r: string, part: string, before: string, behind: string): Option<string>
    decreases |r|
  {
    if r == "" then Some("")
    else if r[0] != '\\' || |r| == 1 then
      var rest := Expanded(r[1..], part, before, behind);
      if rest.None? then None else Some([r[0]] + rest.value)
    else
      var stands, rest := Escape(r[1], r[2..], part, before, behind), Expanded(r[2..], part, before, behind);
      if stands.Raises? || rest.None? then None else Some(stands.s + rest.value)
  }

  // The first occurrence of a part replaced, or the text as it is when there is none.
  function Sub(text: string, part: string, r: string): Option<string> {
    var at := FindFrom(text, part, 0);
    if at.None? then Some(text)
    else
      var before, behind := text[..at.value], text[at.value + |part|..];
      var put := Expanded(r, part, before, behind);
      if put.None? then None else Some(before + put.value + behind)
  }

  // No backslash of a replacement stands for anything but itself.
  predicate Quiet(r: string)
    decreases |r|
  {
    if r == "" then true
    else if r[0] != '\\' || |r| == 1 then Quiet(r[1..])
    else Escape(r[1], r[2..], "", "", "") == For(['\\', r[1]]) && Quiet(r[2..])
  }

  lemma {:induction false} QuietIsKept(r: string, part: string, before: string, behind: string)
    requires Quiet(r)
    ensures Expanded(r, part, before, behind) == Some(r)
    decreases |r|
  {
    if r == "" {
    } else if r[0] != '\\' || |r| == 1 {
      QuietIsKept(r[1..], part, before, behind);
      assert r == [r[0]] + r[1..];
    } else {
      QuietIsKept(r[2..], part, before, behind);
      assert r == ['\\', r[1]] + r[2..];
    }
  }

  function Newlines(s: string): nat {
    if s == "" then 0 else (if s[0] == '\n' then 1 else 0) + Newlines(s[1..])
  }

  lemma {:induction false} NewlinesBoth(a: string, b: string)
    ensures Newlines(a + b) == Newlines(a) + Newlines(b)
  {
    if a == "" {
      assert a + b == b;
    } else {
      NewlinesBoth(a[1..], b);
      assert (a + b)[1..] == a[1..] + b;
    }
  }

  lemma {:induction false} SomeNewline(s: string)
    ensures '\n' in s <==> Newlines(s) > 0
  {
    if s != "" {
      SomeNewline(s[1..]);
      assert s == [s[0]] + s[1..];
    }
  }

  // Text around a block starts and ends lines, so what is put in is empty or has a line's end in it.
  predicate Whole(s: string) { s == "" || '\n' in s }

  // A replacement grows by lines, or not at all; and keeps its length only by being put in as it stands.
  lemma {:induction false} GrowsByLines(r: string, part: string, before: string, behind: string)
    requires Whole(part) && Whole(before) && Whole(behind)
    ensures var put := Expanded(r, part, before, behind);
            put.Some? ==>
              && Newlines(put.value) >= Newlines(r)
              && (Newlines(put.value) == Newlines(r) ==> |put.value| <= |r| && (|put.value| == |r| ==> Quiet(r)))
    decreases |r|
  {
    var put := Expanded(r, part, before, behind);
    if r != "" && put.Some? {
      if r[0] != '\\' || |r| == 1 {
        GrowsByLines(r[1..], part, before, behind);
        NewlinesBoth([r[0]], Expanded(r[1..], part, before, behind).value);
      } else {
        GrowsByLines(r[2..], part, before, behind);
        TokenNewlines(r);
        TokenGrowsByLines(r, part, before, behind);
        NewlinesBoth(Escape(r[1], r[2..], part, before, behind).s, Expanded(r[2..], part, before, behind).value);
      }
    }
  }

  lemma TokenNewlines(r: string)
    requires |r| > 1 && r[0] == '\\'
    ensures Newlines(r) == (if r[1] == '\n' then 1 else 0) + Newlines(r[2..])
  {
    assert r[1..][1..] == r[2..];
  }

  lemma TokenGrowsByLines(r: string, part: string, before: string, behind: string)
    requires |r| > 1 && r[0] == '\\' && Escape(r[1], r[2..], part, before, behind).For?
    requires Whole(part) && Whole(before) && Whole(behind)
    ensures var stands := Escape(r[1], r[2..], part, before, behind).s;
            || (Newlines(stands) > 0 && r[1] != '\n')
            || (Newlines(stands) == 0 && r[1] != '\n' && |stands| < 2)
            || (stands == ['\\', r[1]] && Newlines(stands) == (if r[1] == '\n' then 1 else 0)
                && Escape(r[1], r[2..], "", "", "") == For(stands))
  {
    var stands := Escape(r[1], r[2..], part, before, behind).s;
    SomeNewline(stands);
    if stands == ['\\', r[1]] {
      TokenNewlines(stands);
    }
  }

  // A replacement of whole lines is put in as it stands exactly when each of its backslashes stands
  // for itself.
  lemma KeptIsQuiet(r: string, part: string, before: string, behind: string)
    requires Whole(part) && Whole(before) && Whole(behind)
    ensures Expanded(r, part, before, behind) == Some(r) <==> Quiet(r)
  {
    GrowsByLines(r, part, before, behind);
    if Quiet(r) {
      QuietIsKept(r, part, before, behind);
    }
  }

  // ----- Where a block's text is found -----

  lemma BreaksAfter(l: string, x: string)
    requires '\n' !in l
    ensures var s := l + "\n" + x;
            |l| < |s| && s[|l|] == '\n' && s[..|l|] == l && s[|l| + 1..] == x && forall i :: 0 <= i < |l| ==>
                s[i] != '\n'
  {
    var s := l + "\n" + x;
    forall i | 0 <= i < |l| ensures s[i] != '\n' {
      assert s[i] == l[i];
    }
  }

  lemma SameLine(l: string, x: string, m: string, y: string)
    requires '\n' !in l && '\n' !in m && l + "\n" + x == m + "\n" + y
    ensures l == m && x == y
  {
    BreaksAfter(l, x);
    BreaksAfter(m, y);
  }

  lemma TextNone(x: string)
    ensures Text([]) + x == x
  {
  }

  // Texts that begin alike have lines that begin alike.
  lemma {:induction false} LinesBeginAlike(a: seq<string>, x: string, b: seq<string>, y: string)
    requires Lines(a) && Lines(b) && |b| <= |a| && Text(a) + x == Text(b) + y
    ensures b <= a && Text(a[|b|..]) + x == y
  {
    hide Text;
    if b == [] {
      assert a[0..] == a;
      TextNone(y);
    } else {
      TextHead(a, x);
      TextHead(b, y);
      SameLine(a[0], Text(a[1..]) + x, b[0], Text(b[1..]) + y);
      LinesBeginAlike(a[1..], x, b[1..], y);
      assert a[1..][|b| - 1..] == a[|b|..];
      assert b == [b[0]] + b[1..] && a == [a[0]] + a[1..];
    }
  }

  // Nor can a text begin with more whole lines than it has.
  lemma {:induction false} LinesAreThere(a: seq<string>, b: seq<string>, y: string)
    requires Lines(a) && Lines(b) && Text(a) == Text(b) + y
    ensures |b| <= |a|
  {
    if b != [] {
      TextHead(b, y);
      if a != [] {
        TextHead(a, "");
        SameLine(a[0], Text(a[1..]) + "", b[0], Text(b[1..]) + y);
        assert Text(a[1..]) + "" == Text(a[1..]);
        LinesAreThere(a[1..], b[1..], y);
      }
    }
  }

  predicate EndsAs(line: string, end: string) { |end| <= |line| && line[|line| - |end|..] == end }

  // The `k`th line ends as a block's first line, and the block's other lines follow it.
  predicate CopyAt(lines: seq<string>, block: seq<string>, k: nat)
    requires block != []
  {
    k + |block| <= |lines| && EndsAs(lines[k], block[0]) && lines[k + 1..k + |block|] == block[1..]
  }

  // Where the text of a copy begins.
  function CopyOffset(lines: seq<string>, block: seq<string>, k: nat): nat
    requires block != [] && CopyAt(lines, block, k)
  {
    |Text(lines[..k])| + |lines[k]| - |block[0]|
  }

  lemma LineCut(lines: seq<string>, j: nat)
    requires lines != [] && j <= |lines[0]|
    ensures Text(lines) == lines[0][..j] + Text([lines[0][j..]] + lines[1..])
  {
    var cut := [lines[0][j..]] + lines[1..];
    assert cut[1..] == lines[1..];
    assert lines[0] == lines[0][..j] + lines[0][j..];
  }

  lemma OccursBetween(before: string, part: string, behind: string)
    ensures OccursAt(before + (part + behind), part, |before|)
  {
    var text := before + (part + behind);
    assert text[|before|..|before| + |part|] == part;
  }

  lemma CopyOccurs(lines: seq<string>, block: seq<string>, k: nat)
    requires block != [] && CopyAt(lines, block, k)
    ensures OccursAt(Text(lines), Text(block), CopyOffset(lines, block, k))
  {
    hide Text;
    var j, own, rest := |lines[k]| - |block[0]|, lines[k..], lines[k + |block|..];
    TextFrom(lines, k);
    LineCut(own, j);
    assert [own[0][j..]] + own[1..] == block + rest;
    TextBoth(block, rest);
    var before := Text(lines[..k]) + own[0][..j];
    assert Text(lines) == before + (Text(block) + Text(rest));
    OccursBetween(before, Text(block), Text(rest));
  }

  lemma OccursInFirst(lines: seq<string>, block: seq<string>, p: nat)
    requires Lines(lines) && Lines(block) && block != [] && lines != [] && p <= |lines[0]|
    requires OccursAt(Text(lines), Text(block), p)
    ensures CopyAt(lines, block, 0) && p == |lines[0]| - |block[0]|
  {
    var tail := Text(lines)[p + |Text(block)|..];
    assert Text(lines)[p..] == Text(block) + tail;
    var cut := [lines[0][p..]] + lines[1..];
    LineCut(lines, p);
    assert Text(lines)[p..] == Text(cut) by {
      assert (lines[0][..p] + Text(cut))[p..] == Text(cut);
    }
    assert forall i :: 0 <= i < |cut[0]| ==> cut[0][i] == lines[0][p + i];
    hide Text;
    LinesAreThere(cut, block, tail);
    TextHasNoMore(cut);
    LinesBeginAlike(cut, "", block, tail);
    assert cut[..|block|] == block;
    assert lines[1..|block|] == cut[..|block|][1..];
  }

  lemma TextHasNoMore(lines: seq<string>)
    ensures Text(lines) + "" == Text(lines)
  {
  }

  lemma OccursInRest(lines: seq<string>, part: string, p: nat)
    requires lines != [] && |lines[0]| < p && OccursAt(Text(lines), part, p)
    ensures OccursAt(Text(lines[1..]), part, p - |lines[0]| - 1)
  {
    var q := p - |lines[0]| - 1;
    assert Text(lines)[|lines[0]| + 1..] == Text(lines[1..]);
    assert Text(lines[1..])[q..q + |part|] == Text(lines)[p..p + |part|];
  }

  lemma CopyInRest(lines: seq<string>, block: seq<string>, k: nat)
    requires block != [] && lines != [] && CopyAt(lines[1..], block, k)
    ensures CopyAt(lines, block, k + 1)
    ensures CopyOffset(lines, block, k + 1) == |lines[0]| + 1 + CopyOffset(lines[1..], block, k)
  {
    assert lines[k + 2..k + 1 + |block|] == lines[1..][k + 1..k + |block|];
    assert lines[..k + 1][1..] == lines[1..][..k];
  }

  // A block's text occurs only where a line ends as its first line and its other lines follow.
  lemma {:induction false} OccursAsCopy(lines: seq<string>, block: seq<string>, p: nat) returns (k: nat)
    requires Lines(lines) && Lines(block) && block != [] && OccursAt(Text(lines), Text(block), p)
    ensures CopyAt(lines, block, k) && p == CopyOffset(lines, block, k)
  {
    TextHead(block, "");
    if p <= |Text(lines)| && lines != [] {
      hide CopyAt, OccursAt;
      if p <= |lines[0]| {
        OccursInFirst(lines, block, p);
        k := 0;
      } else {
        OccursInRest(lines, Text(block), p);
        k := OccursAsCopy(lines[1..], block, p - |lines[0]| - 1);
        CopyInRest(lines, block, k);
        k := k + 1;
      }
    }
  }

  lemma {:induction false} TextGrows(lines: seq<string>, k: nat, m: nat)
    requires k < m <= |lines|
    ensures |Text(lines[..k])| + |lines[k]| < |Text(lines[..m])|
  {
    TextFrom(lines[..m], k);
    assert lines[..m][..k] == lines[..k];
    assert lines[..m][k..][0] == lines[k];
  }

  // A block of the lines is where its opening line starts it.
  predicate IsBlock(lines: seq<string>, name: string, b: Block) {
    b.first < b.last < |lines| && Opens(lines[b.first], name) && BlockAt(lines, b.first) == Some(b)
  }

  predicate Copied(lines: seq<string>, b: Block)
    requires b.first <= b.last < |lines|
  {
    exists k :: 0 <= k < b.first && CopyAt(lines, BlockLines(lines, b), k)
  }

  predicate FoundInPlace(lines: seq<string>, b: Block)
    requires b.first <= b.last < |lines|
  {
    FindFrom(Text(lines), Text(BlockLines(lines, b)), 0) == Some(|Text(lines[..b.first])|)
  }

  // The first place a block's text is found is its own exactly when no earlier line begins a copy.
  lemma FoundUnlessCopied(lines: seq<string>, b: Block)
    requires Lines(lines) && b.first <= b.last < |lines|
    ensures OccursAt(Text(lines), Text(BlockLines(lines, b)), |Text(lines[..b.first])|)
    ensures FoundInPlace(lines, b) <==> !Copied(lines, b)
  {
    hide Text;
    var block, own := BlockLines(lines, b), |Text(lines[..b.first])|;
    assert CopyAt(lines, block, b.first);
    CopyOccurs(lines, block, b.first);
    var at := FindFrom(Text(lines), Text(block), 0);
    if at.value < own {
      var k := OccursAsCopy(lines, block, at.value);
      if b.first <= k {
        TextNotShorter(lines, b.first, k);
      }
      assert CopyAt(lines, block, k);
    }
    if k :| 0 <= k < b.first && CopyAt(lines, block, k) {
      CopyOccurs(lines, block, k);
      TextGrows(lines, k, b.first);
    }
  }

  lemma TextNotShorter(lines: seq<string>, k: nat, m: nat)
    requires k <= m <= |lines|
    ensures |Text(lines[..k])| <= |Text(lines[..m])|
  {
    if k < m {
      TextGrows(lines, k, m);
    }
  }

  // ----- Replacing a block -----

  function Put(lines: seq<string>, b: Block, now: seq<string>): seq<string>
    requires b.first <= b.last < |lines|
  {
    lines[..b.first] + now + lines[b.last + 1..]
  }

  // The text an edit writes: the block's text replaced in the whole.
  function Replaced(lines: seq<string>, b: Block, now: seq<string>): Option<string>
    requires b.first <= b.last < |lines|
  {
    Sub(Text(lines), Text(BlockLines(lines, b)), Text(now))
  }

  lemma {:induction false} WholeText(lines: seq<string>)
    ensures Whole(Text(lines))
  {
    if lines != [] {
      assert Text(lines)[|lines[0]|] == '\n';
    }
  }

  lemma TextAround(lines: seq<string>, b: Block)
    requires b.first <= b.last < |lines|
    ensures Text(lines) == Text(lines[..b.first]) + Text(BlockLines(lines, b)) + Text(lines[b.last + 1..])
  {
    hide Text;
    var upTo := lines[..b.last + 1];
    TextFrom(lines, b.last + 1);
    TextFrom(upTo, b.first);
    assert upTo[..b.first] == lines[..b.first] && upTo[b.first..] == BlockLines(lines, b);
  }

  lemma Cancelled(a: string, x: string, y: string, c: string)
    requires a + x + c == a + y + c
    ensures x == y
  {
    assert |x| == |y|;
    assert x == (a + x + c)[|a|..|a| + |x|];
    assert y == (a + y + c)[|a|..|a| + |y|];
  }

  // A block found in its place is replaced there, by lines that are put in as they stand exactly when
  // each of their backslashes stands for itself.
  lemma ReplacedInPlace(lines: seq<string>, b: Block, now: seq<string>)
    requires b.first <= b.last < |lines| && FoundInPlace(lines, b)
    ensures Replaced(lines, b, now) == Some(Text(Put(lines, b, now))) <==> Quiet(Text(now))
  {
    hide Text, Expanded, Quiet, FindFrom;
    var part, before, behind := Text(BlockLines(lines, b)), Text(lines[..b.first]), Text(lines[b.last + 1..]);
    TextAround(lines, b);
    WholeText(BlockLines(lines, b));
    WholeText(lines[..b.first]);
    WholeText(lines[b.last + 1..]);
    KeptIsQuiet(Text(now), part, before, behind);
    TextOfThree(lines[..b.first], now, lines[b.last + 1..]);
    SplitAt(before, part, behind);
    var put := Expanded(Text(now), part, before, behind);
    if put.Some? {
      if before + put.value + behind == before + Text(now) + behind {
        Cancelled(before, put.value, Text(now), behind);
      }
    }
  }

  lemma SplitAt(before: string, part: string, behind: string)
    ensures var text := before + part + behind; text[..|before|] == before && text[|before| + |part|..] == behind
  {
  }

  // A copy ends before the block begins: the line that closes it would close the block.
  lemma CopyEndsBefore(lines: seq<string>, name: string, b: Block, k: nat)
    requires IsBlock(lines, name, b) && k < b.first && CopyAt(lines, BlockLines(lines, b), k)
    ensures k + |BlockLines(lines, b)| <= b.first
  {
    var block := BlockLines(lines, b);
    var m, indent := |block|, IndentOf(lines[b.first]);
    if b.first < k + m {
      var at := k + m - 1;
      assert lines[k + 1..k + m][m - 2] == block[1..][m - 2] == lines[b.last];
      assert lines[at] == lines[b.last];
      assert Closes(lines[at], indent);
      OpeningDoesNotClose(lines[b.first], name);
    }
  }

  lemma OpeningDoesNotClose(line: string, name: string)
    requires Opens(line, name)
    ensures !Closes(line, IndentOf(line))
  {
    var n := Indent(line);
    if |line| >= n + 3 {
      assert line[n] == line[n..][0] == 'v';
      assert (IndentOf(line) + "end")[n] == 'e';
    }
  }

  lemma CopyStartsBefore(lines: seq<string>, b: Block, k: nat, p: nat)
    requires b.first <= b.last < |lines| && CopyAt(lines, BlockLines(lines, b), k)
    requires p == CopyOffset(lines, BlockLines(lines, b), k) && p < |Text(lines[..b.first])|
    ensures k < b.first
  {
    if b.first <= k {
      TextNotShorter(lines, b.first, k);
    }
  }

  lemma CopyOffsetEnds(lines: seq<string>, block: seq<string>, k: nat)
    requires block != [] && CopyAt(lines, block, k)
    ensures CopyOffset(lines, block, k) + |Text(block)| == |Text(lines[..k + |block|])|
  {
    var upTo := lines[..k + |block|];
    TextFrom(upTo, k);
    assert upTo[..k] == lines[..k];
    assert upTo[k..][0] == lines[k] && upTo[k..][1..] == block[1..];
    assert |Text(upTo[k..])| == |lines[k]| + 1 + |Text(block[1..])|;
    assert |Text(block)| == |block[0]| + 1 + |Text(block[1..])|;
  }

  // The first copy of a block's text ends before the block begins.
  lemma FirstCopy(lines: seq<string>, name: string, b: Block) returns (k: nat)
    requires b.first <= b.last < |lines| && Lines(lines) && IsBlock(lines, name, b) && Copied(lines, b)
    ensures var block := BlockLines(lines, b);
            && k + |block| <= b.first && CopyAt(lines, block, k)
            && FindFrom(Text(lines), Text(block), 0) == Some(CopyOffset(lines, block, k))
            && OccursAt(Text(lines), Text(block), CopyOffset(lines, block, k))
  {
    hide Text;
    var block := BlockLines(lines, b);
    FoundUnlessCopied(lines, b);
    var p := FindFrom(Text(lines), Text(block), 0).value;
    k := OccursAsCopy(lines, block, p);
    CopyStartsBefore(lines, b, k, p);
    CopyEndsBefore(lines, name, b, k);
  }

  // ----- When a copy is found first -----

  lemma {:induction false} BreakIn(s: string) returns (k: nat)
    requires '\n' in s
    ensures k < |s| && s[k] == '\n' && '\n' !in s[..k]
  {
    if s[0] == '\n' {
      k := 0;
    } else {
      assert s == [s[0]] + s[1..];
      k := BreakIn(s[1..]);
      assert s[..k + 1] == [s[0]] + s[1..][..k];
      k := k + 1;
    }
  }

  lemma {:induction false} SplitText(s: string) returns (lines: seq<string>)
    requires s == "" || s[|s| - 1] == '\n'
    ensures Lines(lines) && Text(lines) == s
    decreases |s|
  {
    if s == "" {
      lines := [];
    } else {
      var k := BreakIn(s);
      var rest := SplitText(s[k + 1..]);
      lines := [s[..k]] + rest;
      assert lines[1..] == rest;
      assert s == s[..k] + "\n" + s[k + 1..];
    }
  }

  lemma TextSame(a: seq<string>, b: seq<string>)
    requires Lines(a) && Lines(b) && Text(a) == Text(b)
    ensures a == b
  {
    hide Text;
    TextHasNoMore(a);
    TextHasNoMore(b);
    LinesAreThere(a, b, "");
    LinesAreThere(b, a, "");
    LinesBeginAlike(a, "", b, "");
    assert a[..|b|] == a;
  }

  // Nothing a replacement's last line ends in is lost.
  lemma {:induction false} ExpandedEnds(r: string, part: string, before: string, behind: string)
    requires r != "" && r[|r| - 1] == '\n' && Expanded(r, part, before, behind).Some?
    ensures var put := Expanded(r, part, before, behind).value; put != "" && put[|put| - 1] == '\n'
    decreases |r|
  {
    if r[0] != '\\' || |r| == 1 {
      if |r| > 1 {
        ExpandedEnds(r[1..], part, before, behind);
      }
    } else if |r| > 2 {
      ExpandedEnds(r[2..], part, before, behind);
    }
  }

  lemma TwoPlaces(text: string, part: string, p: nat, own: nat)
    requires OccursAt(text, part, p) && OccursAt(text, part, own) && p + |part| <= own
    ensures var between, behind := text[p + |part|..own], text[own + |part|..];
            text[..own] == text[..p] + part + between && text[p + |part|..] == between + part + behind
  {
    var between, behind := text[p + |part|..own], text[own + |part|..];
    assert text[own..] == part + behind;
    assert text[..own] == text[..p] + text[p..p + |part|] + between;
    assert text[p + |part|..] == between + text[own..];
  }

  // Two ways to edit one text, of which the first puts something in ahead of where the second does.
  lemma EditsApart(before: string, part: string, between: string, behind: string, put: string, now: string)
    requires before + put + (between + part + behind) == before + part + between + now + behind
    ensures put + between + part == part + between + now
  {
    assert before + put + (between + part + behind) == before + (put + between + part) + behind;
    assert before + part + between + now + behind == before + (part + between + now) + behind;
    Cancelled(before, put + between + part, part + between + now, behind);
  }

  // An edit that lands in a copy and comes out right all the same has put in other lines, which make up
  // for it: followed by what is between the two and the block, they are the block, that, and the edit.
  lemma CopyMakesUp(lines: seq<string>, name: string, b: Block, now: seq<string>) returns (put: seq<string>,
      between: seq<string>)
    requires b.first <= b.last < |lines| && Lines(lines) && Lines(now) && IsBlock(lines, name, b) && Copied(lines, b)
    requires now != [] && Replaced(lines, b, now) == Some(Text(Put(lines, b, now)))
    ensures var block := BlockLines(lines, b); |put| == |now| && put + between + block == block + between + now
  {
    hide Text, FindFrom, Expanded, CopyAt, IsBlock, Copied, Newlines, Lines;
    var text, block := Text(lines), BlockLines(lines, b);
    var part, own := Text(block), |Text(lines[..b.first])|;
    var k := FirstCopy(lines, name, b);
    var p := CopyOffset(lines, block, k);
    CopyOffsetEnds(lines, block, k);
    TextBetween(lines, k + |block|, b.first);
    FoundUnlessCopied(lines, b);
    var before, behind, expanded :=
        text[..p], text[own + |part|..], Expanded(Text(now), part, text[..p], text[p + |part|..]).value;
    between := lines[k + |block|..b.first];
    TwoPlaces(text, part, p, own);
    PutText(lines, b, now);
    EditsApart(before, part, Text(between), behind, expanded, Text(now));
    PartsAreLines(lines, k + |block|, b);
    TextEnds(now);
    ExpandedEnds(Text(now), part, before, text[p + |part|..]);
    put := SplitText(expanded);
    TextOfThree(put, between, block);
    TextOfThree(block, between, now);
    AllLines(put, between, block);
    AllLines(block, between, now);
    TextSame(put + between + block, block + between + now);
  }

  lemma PutText(lines: seq<string>, b: Block, now: seq<string>)
    requires b.first <= b.last < |lines|
    ensures var text, own, part := Text(lines), |Text(lines[..b.first])|, Text(BlockLines(lines, b));
            own + |part| <= |text| && Text(Put(lines, b, now)) == text[..own] + Text(now) + text[own + |part|..]
  {
    hide Text;
    TextAround(lines, b);
    SplitAt(Text(lines[..b.first]), Text(BlockLines(lines, b)), Text(lines[b.last + 1..]));
    TextOfThree(lines[..b.first], now, lines[b.last + 1..]);
  }

  lemma AllLines(a: seq<string>, b: seq<string>, c: seq<string>)
    requires Lines(a) && Lines(b) && Lines(c)
    ensures Lines(a + b + c)
  {
  }

  lemma PartsAreLines(lines: seq<string>, k: nat, b: Block)
    requires Lines(lines) && k <= b.first <= b.last < |lines|
    ensures Lines(BlockLines(lines, b)) && Lines(lines[k..b.first])
  {
  }

  lemma TextBetween(lines: seq<string>, i: nat, j: nat)
    requires i <= j <= |lines|
    ensures |Text(lines[..i])| <= |Text(lines[..j])| <= |Text(lines)|
    ensures Text(lines)[|Text(lines[..i])|..|Text(lines[..j])|] == Text(lines[i..j])
  {
    hide Text;
    TextFrom(lines, j);
    TextFrom(lines[..j], i);
    assert lines[..j][..i] == lines[..i] && lines[..j][i..] == lines[i..j];
  }

  lemma {:induction false} TextEnds(lines: seq<string>)
    requires lines != []
    ensures Text(lines) != "" && Text(lines)[|Text(lines)| - 1] == '\n'
  {
    if |lines| > 1 {
      TextEnds(lines[1..]);
    }
  }

  // Changed line by line, a block in a copy's shadow never comes out right.
  lemma RewriteMissed(lines: seq<string>, name: string, b: Block, now: seq<string>)
    requires b.first <= b.last < |lines| && Lines(lines) && Lines(now) && IsBlock(lines, name, b) && Copied(lines, b)
    requires |now| == |BlockLines(lines, b)| && now != BlockLines(lines, b)
    ensures Replaced(lines, b, now) != Some(Text(Put(lines, b, now)))
  {
    hide Text, IsBlock, Copied, Replaced, Put, Lines;
    if Replaced(lines, b, now) == Some(Text(Put(lines, b, now))) {
      var block := BlockLines(lines, b);
      var put, between := CopyMakesUp(lines, name, b, now);
      SameEnds(put, between, block, now);
    }
  }

  lemma SameEnds(put: seq<string>, between: seq<string>, block: seq<string>, now: seq<string>)
    requires |put| == |block| && put + between + block == block + between + now
    ensures now == block
  {
    assert (put + between + block)[|block + between|..] == block;
    assert (block + between + now)[|block + between|..] == now;
  }

  // What a list is shifted by, it is made of.
  lemma {:induction false} Shifted(c: seq<string>, m: seq<string>, a: seq<string>, i: nat)
    requires c + m == m + a && |c| == |a| && a != [] && i < |m|
    ensures m[i] in a
    decreases |m| - i
  {
    var d := |c|;
    assert (c + m)[i + d] == m[i];
    if i + d < |m| {
      assert (m + a)[i + d] == m[i + d];
      Shifted(c, m, a, i + d);
    } else {
      assert (m + a)[i + d] == a[i + d - |m|];
    }
  }

  // Nor does it with lines added before its last, unless its opening line is among them.
  lemma AppendMissed(lines: seq<string>, name: string, b: Block, added: seq<string>)
    requires b.first < b.last < |lines| && Lines(lines) && Lines(added) && IsBlock(lines, name, b) && Copied(lines, b)
    requires added != [] && lines[b.first] !in added
    ensures var now := lines[b.first..b.last] + added + [lines[b.last]];
            Replaced(lines, b, now) != Some(Text(Put(lines, b, now)))
  {
    hide Text, IsBlock, Copied, Replaced, Put;
    var front, block, d := lines[b.first..b.last], BlockLines(lines, b), |added|;
    var now := front + added + [lines[b.last]];
    assert block == front + [lines[b.last]];
    if Replaced(lines, b, now) == Some(Text(Put(lines, b, now))) {
      hide Lines;
      var put, between := CopyMakesUp(lines, name, b, now);
      var c, m := put[|block|..], between + front;
      ShiftOf(put, between, front, lines[b.last], added);
      assert m[|between|] == front[0] == lines[b.first];
      Shifted(c, m, added, |between|);
    }
  }

  lemma ShiftOf(put: seq<string>, between: seq<string>, front: seq<string>, last: string, added: seq<string>)
    requires |put| == |front| + |added| + 1
    requires put + between + (front + [last]) == (front + [last]) + between + (front + added + [last])
    ensures put[|front| + 1..] + (between + front) == (between + front) + added
  {
    var n, a, z := |front| + 1, put + between + (front + [last]), (front + [last]) + between + (front + added + [last]);
    assert a[n..|a| - 1] == put[n..] + (between + front);
    assert z[n..|z| - 1] == (between + front) + added;
  }

  // ----- The edits -----

  // What an edit of a file comes to; an edit that finds no block is refused.
  datatype Surgery = Wrote(text: string) | Refused | Raised

  function Written(text: Option<string>): Surgery {
    if text.None? then Raised else Wrote(text.value)
  }

  // The file an edit of rows should leave: the rows picked in a block spelled anew, and nothing else.
  function Respelled(lines: seq<string>, b: Block, matches: string -> bool, spell: string -> string): seq<string>
    requires b.first <= b.last < |lines|
  {
    seq(|lines|, i requires 0 <= i < |lines| =>
      if b.first <= i <= b.last && matches(lines[i]) then spell(lines[i]) else lines[i])
  }

  function RespelledLines(lines: seq<string>, b: Block, matches: string -> bool, spell: string -> string): seq<string>
    requires b.first <= b.last < |lines|
  {
    Respelled(lines, b, matches, spell)[b.first..b.last + 1]
  }

  lemma RespelledIsPut(lines: seq<string>, b: Block, matches: string -> bool, spell: string -> string)
    requires b.first <= b.last < |lines|
    ensures Respelled(lines, b, matches, spell) == Put(lines, b, RespelledLines(lines, b, matches, spell))
  {
  }

  // Spells anew each row picked in the first block that holds one.
  function RewriteRows(lines: seq<string>, name: string, matches: string -> bool, spell: string -> string): Surgery {
    if !AllClosed(lines, name) then Raised
    else
      var b := Chosen(lines, name, matches, 0);
      if b.None? then Refused
      else Written(Replaced(lines, b.value, RespelledLines(lines, b.value, matches, spell)))
  }

  // Every row spelled anew is still a line.
  ghost predicate SpellsLines(matches: string -> bool, spell: string -> string) {
    forall l :: matches(l) && '\n' !in l ==> '\n' !in spell(l)
  }

  // An edit that changes a row leaves every other line of the file as it was exactly when no earlier
  // line begins a copy of the block and no backslash of the block written stands for anything else. One
  // that changes none leaves the file as it was under either half, and needs the second under the first.
  lemma RewriteLeavesTheRest(lines: seq<string>, name: string, matches: string -> bool, spell: string -> string)
    requires Lines(lines) && SpellsLines(matches, spell)
    requires AllClosed(lines, name) && Chosen(lines, name, matches, 0).Some?
    ensures var b := Chosen(lines, name, matches, 0).value;
            var after, now := Respelled(lines, b, matches, spell), Text(RespelledLines(lines, b, matches, spell));
            var right := RewriteRows(lines, name, matches, spell) == Wrote(Text(after));
            && (after != lines ==> (right <==> !Copied(lines, b) && Quiet(now)))
            && (after == lines ==> (Quiet(now) ==> right) && (!Copied(lines, b) && right ==> Quiet(now)))
  {
    hide Text, Quiet, FindFrom, Expanded, CopyAt, Copied, Chosen, Closes, Indent, Sub, Opens, AllClosed, Respelled;
    var b := Chosen(lines, name, matches, 0).value;
    var now := RespelledLines(lines, b, matches, spell);
    assert IsBlock(lines, name, b);
    RespelledIsPut(lines, b, matches, spell);
    RespelledAreLines(lines, b, matches, spell);
    FoundUnlessCopied(lines, b);
    if !Copied(lines, b) {
      ReplacedInPlace(lines, b, now);
    } else if Respelled(lines, b, matches, spell) != lines {
      RespelledChanges(lines, b, matches, spell);
      RewriteMissed(lines, name, b, now);
    } else if Quiet(Text(now)) {
      SameReplaced(lines, b);
    }
  }

  // A block replaced by itself, wherever it is found, changes nothing.
  lemma SameReplaced(lines: seq<string>, b: Block)
    requires b.first <= b.last < |lines| && Quiet(Text(BlockLines(lines, b)))
    ensures Replaced(lines, b, BlockLines(lines, b)) == Some(Text(lines))
  {
    hide Text, Quiet, Expanded;
    var text, part := Text(lines), Text(BlockLines(lines, b));
    var at := FindFrom(text, part, 0);
    if at.Some? {
      var before, behind := text[..at.value], text[at.value + |part|..];
      QuietIsKept(part, part, before, behind);
      assert text == before + text[at.value..at.value + |part|] + behind;
    }
  }

  lemma RespelledAreLines(lines: seq<string>, b: Block, matches: string -> bool, spell: string -> string)
    requires b.first <= b.last < |lines| && Lines(lines) && SpellsLines(matches, spell)
    ensures Lines(RespelledLines(lines, b, matches, spell))
    ensures |RespelledLines(lines, b, matches, spell)| == |BlockLines(lines, b)|
  {
  }

  lemma RespelledChanges(lines: seq<string>, b: Block, matches: string -> bool, spell: string -> string)
    requires b.first <= b.last < |lines| && Respelled(lines, b, matches, spell) != lines
    ensures RespelledLines(lines, b, matches, spell) != BlockLines(lines, b)
  {
    var after, now, block :=
        Respelled(lines, b, matches, spell), RespelledLines(lines, b, matches, spell), BlockLines(lines, b);
    var i :| 0 <= i < |lines| && after[i] != lines[i];
    assert now[i - b.first] == after[i] && block[i - b.first] == lines[i];
  }

  // The file a new row should leave: its lines just before the one that closes the block.
  function Appended(lines: seq<string>, b: Block, added: seq<string>): seq<string>
    requires b.first <= b.last < |lines|
  {
    lines[..b.last] + added + lines[b.last..]
  }

  // The block a new row goes to: the first that mentions its context, or the first of all.
  function Owner(lines: seq<string>, name: string, mentions: string -> bool): Option<Block>
    requires AllClosed(lines, name)
  {
    var b := Chosen(lines, name, mentions, 0);
    if b.Some? then b else Chosen(lines, name, _ => true, 0)
  }

  function AppendRow(lines: seq<string>, name: string, mentions: string -> bool, added: seq<string>): Surgery {
    if !AllClosed(lines, name) then Raised
    else
      var b := Owner(lines, name, mentions);
      if b.None? then Refused
      else Written(Replaced(lines, b.value,
          BlockLines(Appended(lines, b.value, added), Block(b.value.first, b.value.last + |added|))))
  }

  // A new row leaves every other line of the file as it was exactly under the same two conditions; it is
  // a member's row, not another opening line.
  lemma AppendLeavesTheRest(lines: seq<string>, name: string, mentions: string -> bool, added: seq<string>)
    requires Lines(lines) && Lines(added) && AllClosed(lines, name) && Owner(lines, name, mentions).Some?
    requires added != [] && lines[Owner(lines, name, mentions).value.first] !in added
    ensures var b := Owner(lines, name, mentions).value;
            var after := Appended(lines, b, added);
            var now := Text(BlockLines(after, Block(b.first, b.last + |added|)));
            AppendRow(lines, name, mentions, added) == Wrote(Text(after)) <==> !Copied(lines, b) && Quiet(now)
  {
    hide Text, Quiet, FindFrom, Expanded, CopyAt, Copied, Chosen, Closes, Indent, Sub, Opens, AllClosed;
    var b := Owner(lines, name, mentions).value;
    OwnerIsBlock(lines, name, mentions);
    AppendedIsPut(lines, b, added);
    var now := BlockLines(Appended(lines, b, added), Block(b.first, b.last + |added|));
    FoundUnlessCopied(lines, b);
    if !Copied(lines, b) {
      ReplacedInPlace(lines, b, now);
    } else {
      AppendMissed(lines, name, b, added);
    }
  }

  lemma OwnerIsBlock(lines: seq<string>, name: string, mentions: string -> bool)
    requires AllClosed(lines, name) && Owner(lines, name, mentions).Some?
    ensures IsBlock(lines, name, Owner(lines, name, mentions).value)
  {
  }

  lemma AppendedIsPut(lines: seq<string>, b: Block, added: seq<string>)
    requires b.first < b.last < |lines|
    ensures var now := BlockLines(Appended(lines, b, added), Block(b.first, b.last + |added|));
            && now == lines[b.first..b.last] + added + [lines[b.last]]
            && Appended(lines, b, added) == Put(lines, b, now)
  {
  }

  // A copy found in place of the block an edit chose starts part-way along its line: a whole line that
  // opened such a block would have been chosen first.
  lemma CopyStartsMidLine(lines: seq<string>, name: string, matches: string -> bool, k: nat)
    requires AllClosed(lines, name) && Chosen(lines, name, matches, 0).Some?
    requires var b := Chosen(lines, name, matches, 0).value; k < b.first && CopyAt(lines, BlockLines(lines, b), k)
    ensures lines[k] != lines[Chosen(lines, name, matches, 0).value.first]
  {
    var b := Chosen(lines, name, matches, 0).value;
    assert !Picks(lines, name, matches, k);
    if lines[k] == lines[b.first] {
      CopyMatches(lines, b, k);
      CopyHolds(lines, b, k, matches);
      CopyIsBlock(lines, name, b, k);
    }
  }

  lemma CopyHolds(lines: seq<string>, b: Block, k: nat, matches: string -> bool)
    requires b.first <= b.last < |lines| && k + b.last - b.first < |lines| && Holds(lines, b, matches)
    requires forall i :: b.first <= i <= b.last ==> lines[i] == lines[i - b.first + k]
    ensures Holds(lines, Block(k, k + b.last - b.first), matches)
  {
    var i :| b.first <= i <= b.last && matches(lines[i]);
    assert matches(lines[i - b.first + k]);
  }

  lemma CopyMatches(lines: seq<string>, b: Block, k: nat)
    requires b.first <= b.last < |lines| && k < b.first && CopyAt(lines, BlockLines(lines, b), k)
    requires lines[k] == lines[b.first]
    ensures forall i :: b.first <= i <= b.last ==> lines[i] == lines[i - b.first + k]
  {
    var block := BlockLines(lines, b);
    forall i | b.first <= i <= b.last ensures lines[i] == lines[i - b.first + k] {
      if i > b.first {
        assert lines[k + 1..k + |block|][i - b.first - 1] == block[1..][i - b.first - 1];
      }
    }
  }

  lemma CopyIsBlock(lines: seq<string>, name: string, b: Block, k: nat)
    requires IsBlock(lines, name, b) && k < b.first && k + b.last - b.first < |lines|
    requires forall i :: b.first <= i <= b.last ==> lines[i] == lines[i - b.first + k]
    ensures BlockAt(lines, k) == Some(Block(k, k + b.last - b.first))
  {
    assert lines[k] == lines[b.first] by { assert lines[b.first] == lines[b.first - b.first + k]; }
    var indent := IndentOf(lines[k]);
    forall i | k + 1 <= i < b.last - b.first + k ensures !Closes(lines[i], indent) {
      assert lines[i - k + b.first] == lines[i - k + b.first - b.first + k];
    }
    assert lines[b.last] == lines[b.last - b.first + k];
    assert Closes(lines[b.last - b.first + k], indent);
  }

  // ----- An edit that follows a word through every block -----

  // Spells the rows picked anew, block by block from the `k`th line of the lines that were read, each
  // in the text the blocks before it left. A block nothing changes is not written.
  function CascadeFrom(text: string, lines: seq<string>, name: string, matches: string -> bool,
                       spell: string -> string, k: nat): Option<string>
    requires AllClosed(lines, name)
    decreases |lines| - k
  {
    if k >= |lines| then Some(text)
    else if !Opens(lines[k], name) then CascadeFrom(text, lines, name, matches, spell, k + 1)
    else
      var b := BlockAt(lines, k).value;
      var block, now := BlockLines(lines, b), RespelledLines(lines, b, matches, spell);
      var next := if now == block then Some(text) else Sub(text, Text(block), Text(now));
      if next.None? then None else CascadeFrom(next.value, lines, name, matches, spell, k + 1)
  }

  // A line of a block that opens before the `k`th.
  predicate InBlock(lines: seq<string>, name: string, k: nat, i: nat)
    requires k <= |lines| && AllClosed(lines, name)
  {
    exists f :: 0 <= f < k && Opens(lines[f], name) && f <= i <= BlockAt(lines, f).value.last
  }

  // The file the blocks before the `k`th line should leave.
  function FollowedTo(lines: seq<string>, name: string, matches: string -> bool, spell: string -> string,
      k: nat): seq<string>
    requires k <= |lines| && AllClosed(lines, name)
  {
    seq(|lines|, i requires 0 <= i < |lines| =>
      if InBlock(lines, name, k, i) && matches(lines[i]) then spell(lines[i]) else lines[i])
  }

  // No block opens inside another.
  predicate Apart(lines: seq<string>, name: string)
    requires AllClosed(lines, name)
  {
    forall f, g :: 0 <= f < g < |lines| && Opens(lines[f], name) && Opens(lines[g], name) ==>
        BlockAt(lines, f).value.last < g
  }

  // Every block an edit changes is written as it is spelled, and no line before it begins a copy of it
  // in the file the blocks before it leave.
  predicate Clear(lines: seq<string>, name: string, matches: string -> bool, spell: string -> string)
    requires AllClosed(lines, name)
  {
    forall k :: 0 <= k < |lines| && Opens(lines[k], name) ==>
      var b := BlockAt(lines, k).value;
      RespelledLines(lines, b, matches, spell) != BlockLines(lines, b) ==>
        && !Copied(FollowedTo(lines, name, matches, spell, k), b)
        && Quiet(Text(RespelledLines(lines, b, matches, spell)))
  }

  lemma BlockFollowed(lines: seq<string>, name: string, matches: string -> bool, spell: string -> string, k: nat)
    requires k < |lines| && AllClosed(lines, name) && Apart(lines, name) && Opens(lines[k], name)
    ensures var b, now := BlockAt(lines, k).value, FollowedTo(lines, name, matches, spell, k);
            && BlockLines(now, b) == BlockLines(lines, b)
            && RespelledLines(now, b, matches, spell) == RespelledLines(lines, b, matches, spell)
            && Respelled(now, b, matches, spell) == FollowedTo(lines, name, matches, spell, k + 1)
  {
    hide Opens, BlockAt;
    var b, now := BlockAt(lines, k).value, FollowedTo(lines, name, matches, spell, k);
    forall i | b.first <= i <= b.last ensures now[i] == lines[i] {
      assert !InBlock(lines, name, k, i);
    }
    forall i | 0 <= i < |lines| ensures InBlock(lines, name, k + 1, i) <==>
        InBlock(lines, name, k, i) || k <= i <= b.last {
    }
    assert BlockLines(now, b) == BlockLines(lines, b);
    assert RespelledLines(now, b, matches, spell) == RespelledLines(lines, b, matches, spell);
  }

  lemma LineFollowed(lines: seq<string>, name: string, matches: string -> bool, spell: string -> string, k: nat)
    requires k < |lines| && AllClosed(lines, name) && !Opens(lines[k], name)
    ensures FollowedTo(lines, name, matches, spell, k) == FollowedTo(lines, name, matches, spell, k + 1)
  {
    hide Opens, BlockAt, AllClosed;
    forall i | 0 <= i < |lines| ensures InBlock(lines, name, k + 1, i) <==> InBlock(lines, name, k, i) {
    }
  }

  lemma {:induction false} CascadeFollows(lines: seq<string>, name: string, matches: string -> bool,
                                          spell: string -> string, k: nat)
    requires k <= |lines| && Lines(lines) && SpellsLines(matches, spell)
    requires AllClosed(lines, name) && Apart(lines, name) && Clear(lines, name, matches, spell)
    ensures CascadeFrom(Text(FollowedTo(lines, name, matches, spell, k)), lines, name, matches, spell, k)
         == Some(Text(FollowedTo(lines, name, matches, spell, |lines|)))
    decreases |lines| - k
  {
    hide Text, Opens, Apart, Quiet, Copied, FindFrom, Sub;
    if k < |lines| {
      CascadeFollows(lines, name, matches, spell, k + 1);
      if Opens(lines[k], name) {
        var b, now := BlockAt(lines, k).value, FollowedTo(lines, name, matches, spell, k);
        var after := RespelledLines(lines, b, matches, spell);
        BlockFollowed(lines, name, matches, spell, k);
        RespelledIsPut(now, b, matches, spell);
        if after != BlockLines(lines, b) {
          FoundUnlessCopied(now, b);
          ReplacedInPlace(now, b, after);
        } else {
          NothingRespelled(now, b, matches, spell);
        }
      } else {
        LineFollowed(lines, name, matches, spell, k);
      }
    }
  }

  lemma NothingRespelled(lines: seq<string>, b: Block, matches: string -> bool, spell: string -> string)
    requires b.first <= b.last < |lines| && RespelledLines(lines, b, matches, spell) == BlockLines(lines, b)
    ensures Respelled(lines, b, matches, spell) == lines
  {
    forall i | 0 <= i < |lines| ensures Respelled(lines, b, matches, spell)[i] == lines[i] {
      if b.first <= i <= b.last {
        assert RespelledLines(lines, b, matches, spell)[i - b.first] == BlockLines(lines, b)[i - b.first];
      }
    }
  }

  // A cascade over clear blocks spells the rows picked anew in every block, and leaves every other line
  // of the file as it was.
  lemma CascadeLeavesTheRest(lines: seq<string>, name: string, matches: string -> bool, spell: string -> string)
    requires Lines(lines) && SpellsLines(matches, spell)
    requires AllClosed(lines, name) && Apart(lines, name) && Clear(lines, name, matches, spell)
    ensures CascadeFrom(Text(lines), lines, name, matches, spell, 0)
         == Some(Text(FollowedTo(lines, name, matches, spell, |lines|)))
  {
    assert FollowedTo(lines, name, matches, spell, 0) == lines;
    CascadeFollows(lines, name, matches, spell, 0);
  }

  // ----- Files an edit does not leave alone -----

  lemma {:induction false} QuietFrom(a: string, b: string)
    requires '\\' !in a
    ensures Quiet(a + b) <==> Quiet(b)
  {
    if a == "" {
      assert a + b == b;
    } else {
      assert (a + b)[1..] == a[1..] + b;
      QuietFrom(a[1..], b);
    }
  }

  // A backslash that escapes another is one of those an edit loses.
  lemma DoubledIsNotQuiet(a: string, b: string)
    requires '\\' !in a
    ensures !Quiet(a + "\\\\" + b)
  {
    assert a + "\\\\" + b == a + ("\\\\" + b);
    QuietFrom(a, "\\\\" + b);
  }

  const SEED := "KeywordSeed"
  const OPENING := "value_object \"" + SEED + "\" do"
  const PLAIN := "member word: \"a\""
  const COMMENTED := ["# " + OPENING, PLAIN, "end", OPENING, PLAIN, "end"]

  // A row whose first backslash escapes another.
  function EscapedRow(a: string, b: string): string { "member " + a + "\\\\" + b }

  function OneRow(row: string): seq<string> { [OPENING, row, "end"] }

  function Is(row: string): string -> bool { l => l == row }

  function Retire(line: string): string { line + ", status: \"retired\"" }

  lemma OpeningOpens()
    ensures Opens(OPENING, SEED) && Indent(OPENING) == 0
    ensures '\n' !in OPENING && '\\' !in OPENING
  {
    assert OPENING[0] == 'v';
    assert OPENING[0..] == OPENING;
  }

  lemma EndCloses()
    ensures Closes("end", "") && !Opens("end", SEED)
  {
    assert "end"[Indent("end")..][0] == 'e';
    assert "" + "end" == "end";
  }

  lemma RowIsPlain(row: string)
    requires |row| > 5 && row[0] == 'm'
    ensures !Opens(row, SEED) && !Closes(row, "")
  {
    assert Indent(row) == 0 && row[0..][0] == 'm';
    assert row[..3][0] == 'm' && ("" + "end")[0] == 'e';
  }

  // A block as the language's tables spell one, its row picked and retired.
  lemma OneBlock(row: string)
    requires |row| > 5 && row[0] == 'm'
    ensures AllClosed(OneRow(row), SEED) && Chosen(OneRow(row), SEED, Is(row), 0) == Some(Block(0, 2))
    ensures RespelledLines(OneRow(row), Block(0, 2), Is(row), Retire) == OneRow(Retire(row))
  {
    var lines := [OPENING, row, "end"];
    OpeningOpens();
    EndCloses();
    RowIsPlain(row);
    assert OPENING[0] == 'v' && OPENING != row && "end" != row by { assert "end"[0] == 'e'; }
    hide Opens, Closes, Indent;
    assert IndentOf(lines[0]) == "";
    assert ClosingFrom(lines, "", 1) == Some(2);
    assert BlockAt(lines, 0) == Some(Block(0, 2));
    assert Holds(lines, Block(0, 2), Is(row)) by { assert lines[1] == row; }
  }

  lemma RetireSpellsLines(row: string)
    ensures SpellsLines(Is(row), Retire)
  {
    assert '\n' !in ", status: \"retired\"";
  }

  // A row with an escaped backslash loses one when its status is set: the file written is not the file
  // with that row's status changed.
  lemma BackslashIsLost(a: string, b: string)
    requires '\n' !in a && '\n' !in b && '\\' !in a
    ensures var row := EscapedRow(a, b);
            && AllClosed(OneRow(row), SEED) && Chosen(OneRow(row), SEED, Is(row), 0) == Some(Block(0, 2))
            && RewriteRows(OneRow(row), SEED, Is(row), Retire)
               != Wrote(Text(Respelled(OneRow(row), Block(0, 2), Is(row), Retire)))
  {
    var row := EscapedRow(a, b);
    OneBlock(row);
    RetiredIsNotQuiet(a, b);
    RetireSpellsLines(row);
    assert Lines(OneRow(row)) by { OpeningOpens(); }
    hide Text, Quiet, Chosen, Retire, AllClosed, OneRow, EscapedRow;
    RewriteLeavesTheRest(OneRow(row), SEED, Is(row), Retire);
  }

  lemma Regrouped(head: string, a: string, e: string, b: string, c: string, d: string)
    ensures head + (a + e + b + c + d) == head + a + e + (b + (c + d))
  {
  }

  lemma RetiredIsNotQuiet(a: string, b: string)
    requires '\\' !in a
    ensures !Quiet(Text(OneRow(Retire(EscapedRow(a, b)))))
  {
    OpeningOpens();
    assert '\\' !in "member ";
    hide Opens, Indent, Quiet, Text, Retire;
    var row := EscapedRow(a, b);
    var status := ", status: \"retired\"";
    assert Retire(row) == row + status by { RetireAdds(row); }
    var after := OneRow(Retire(row));
    var rest := "\n" + (Text(after[2..]) + "");
    TextHasNoMore(after);
    TextHead(after, "");
    TextHead(after[1..], "");
    assert after[1..][1..] == after[2..];
    assert after[1] + "\n" + (Text(after[2..]) + "") == row + status + rest;
    Regrouped(OPENING + "\n", "member " + a, "\\\\", b, status, rest);
    DoubledIsNotQuiet(OPENING + "\n" + ("member " + a), b + (status + rest));
  }

  lemma RetireAdds(row: string)
    ensures Retire(row) == row + ", status: \"retired\""
  {
  }

  lemma {:induction false} PlainIsQuiet(r: string)
    requires '\\' !in r
    ensures Quiet(r)
  {
    if r != "" {
      PlainIsQuiet(r[1..]);
    }
  }

  lemma {:induction false} PlainText(lines: seq<string>)
    requires forall i :: 0 <= i < |lines| ==> '\\' !in lines[i]
    ensures '\\' !in Text(lines)
  {
    if lines != [] {
      PlainText(lines[1..]);
    }
  }

  // A line left ahead of a block that ends as the block's first line takes the edit in its place.
  lemma CommentTakesTheEdit()
    ensures AllClosed(COMMENTED, SEED) && Chosen(COMMENTED, SEED, Is(PLAIN), 0) == Some(Block(3, 5))
    ensures RewriteRows(COMMENTED, SEED, Is(PLAIN), Retire)
         != Wrote(Text(Respelled(COMMENTED, Block(3, 5), Is(PLAIN), Retire)))
  {
    CommentedBlock();
    CommentedCopy();
    CommentedAfter();
    RetireSpellsLines(PLAIN);
    hide Text, Quiet, Chosen, Copied, Retire, AllClosed;
    RewriteLeavesTheRest(COMMENTED, SEED, Is(PLAIN), Retire);
  }

  lemma CommentedCopy()
    ensures Lines(COMMENTED) && Copied(COMMENTED, Block(3, 5))
  {
    OpeningOpens();
    assert '\n' !in PLAIN && '\n' !in "end" && '\n' !in "# ";
    assert ("# " + OPENING)[2..] == OPENING;
    assert BlockLines(COMMENTED, Block(3, 5)) == [OPENING, PLAIN, "end"];
    assert CopyAt(COMMENTED, [OPENING, PLAIN, "end"], 0);
  }

  lemma CommentedAfter()
    ensures Respelled(COMMENTED, Block(3, 5), Is(PLAIN), Retire) != COMMENTED
    ensures Quiet(Text(RespelledLines(COMMENTED, Block(3, 5), Is(PLAIN), Retire)))
  {
    OpeningOpens();
    var after := [OPENING, Retire(PLAIN), "end"];
    assert OPENING[0] == 'v' && OPENING != PLAIN && "end" != PLAIN by { assert "end"[0] == 'e'; }
    hide Opens, Indent;
    assert Respelled(COMMENTED, Block(3, 5), Is(PLAIN), Retire)[4] == Retire(PLAIN);
    assert |Retire(PLAIN)| > |PLAIN|;
    assert RespelledLines(COMMENTED, Block(3, 5), Is(PLAIN), Retire) == after;
    assert '\\' !in PLAIN && '\\' !in ", status: \"retired\"" && '\\' !in "end";
    hide Text, Quiet;
    PlainText(after);
    PlainIsQuiet(Text(after));
  }

  lemma CommentedBlock()
    ensures AllClosed(COMMENTED, SEED) && Chosen(COMMENTED, SEED, Is(PLAIN), 0) == Some(Block(3, 5))
  {
    OpeningOpens();
    EndCloses();
    RowIsPlain(PLAIN);
    assert COMMENTED[0][0] == '#' && COMMENTED[0][0..][0] == '#';
    assert !Opens(COMMENTED[0], SEED);
    assert OPENING[0] == 'v' && OPENING != PLAIN && "end" != PLAIN by { assert "end"[0] == 'e'; }
    hide Opens, Closes, Indent;
    assert IndentOf(COMMENTED[3]) == "";
    assert ClosingFrom(COMMENTED, "", 4) == Some(5);
    assert BlockAt(COMMENTED, 3) == Some(Block(3, 5));
    assert Holds(COMMENTED, Block(3, 5), Is(PLAIN)) by { assert COMMENTED[4] == PLAIN; }
    assert Picks(COMMENTED, SEED, Is(PLAIN), 3);
    assert forall i :: 0 <= i < 3 ==> !Opens(COMMENTED[i], SEED);
  }
}
