// When an edit of a table file is refused or raises, which block it goes to, and what a backslash in what
// it writes stands for, line by line and character by character.
module TableEdits {
  import opened Wrappers
  import opened TableText

  // A line of a block that an opening line starts.
  ghost predicate InBlockOf(lines: seq<string>, name: string, k: nat, i: nat)
    requires AllClosed(lines, name)
  {
    k < |lines| && Opens(lines[k], name) && k <= i <= BlockAt(lines, k).value.last
  }

  // An edit of rows is refused exactly when no line of any block is picked, and raises when an opening
  // line is never closed; otherwise it writes, unless what it writes names a group.
  lemma RewriteEnds(lines: seq<string>, name: string, matches: string -> bool, spell: string -> string)
    ensures !AllClosed(lines, name) ==> RewriteRows(lines, name, matches, spell).Raised?
    ensures AllClosed(lines, name) ==>
              (RewriteRows(lines, name, matches, spell).Refused? <==>
                 forall k: nat, i: nat :: InBlockOf(lines, name, k, i) ==> !matches(lines[i]))
    ensures AllClosed(lines, name) && Chosen(lines, name, matches, 0).Some?
            && Quiet(Text(RespelledLines(lines, Chosen(lines, name, matches, 0).value, matches, spell))) ==>
              RewriteRows(lines, name, matches, spell).Wrote?
  {
    hide Quiet, Text, Closes, Opens, FindFrom, Expanded;
    if AllClosed(lines, name) {
      NonePicked(lines, name, matches);
      var b := Chosen(lines, name, matches, 0);
      if b.Some? && Quiet(Text(RespelledLines(lines, b.value, matches, spell))) {
        WritesQuietly(lines, b.value, RespelledLines(lines, b.value, matches, spell));
      }
    }
  }

  lemma NonePicked(lines: seq<string>, name: string, matches: string -> bool)
    requires AllClosed(lines, name)
    ensures Chosen(lines, name, matches, 0).None? <==>
            forall k: nat, i: nat :: InBlockOf(lines, name, k, i) ==> !matches(lines[i])
  {
    hide Closes, Opens;
    var b := Chosen(lines, name, matches, 0);
    if b.Some? {
      var i :| b.value.first <= i <= b.value.last && matches(lines[i]);
      assert InBlockOf(lines, name, b.value.first, i);
    } else {
      forall k: nat, i: nat | InBlockOf(lines, name, k, i) ensures !matches(lines[i]) {
        assert !Picks(lines, name, matches, k);
      }
    }
  }

  lemma WritesQuietly(lines: seq<string>, b: Block, now: seq<string>)
    requires b.first <= b.last < |lines| && Quiet(Text(now))
    ensures Replaced(lines, b, now).Some?
  {
    hide Text, Quiet, Expanded;
    var text, part := Text(lines), Text(BlockLines(lines, b));
    var at := FindFrom(text, part, 0);
    if at.Some? {
      QuietIsKept(Text(now), part, text[..at.value], text[at.value + |part|..]);
    }
  }

  // A new row goes to the first block one of whose lines mentions its context, and where none does to the
  // first block of all.
  lemma OwnerIsFirst(lines: seq<string>, name: string, mentions: string -> bool, k: nat)
    requires AllClosed(lines, name) && k < |lines| && Opens(lines[k], name)
    ensures var b := BlockAt(lines, k);
            Owner(lines, name, mentions) == b <==>
            if exists f: nat, i: nat :: InBlockOf(lines, name, f, i) && mentions(lines[i])
            then (exists i: nat :: InBlockOf(lines, name, k, i) && mentions(lines[i]))
                 && (forall f: nat, i: nat :: f < k && InBlockOf(lines, name, f, i) ==> !mentions(lines[i]))
            else forall f :: 0 <= f < k ==> !Opens(lines[f], name)
  {
    hide Closes, Opens;
    NonePicked(lines, name, mentions);
    var b := Chosen(lines, name, mentions, 0);
    assert BlockAt(lines, k).value.first == k by { BlockStarts(lines, name, k); }
    if b.Some? {
      var i :| b.value.first <= i <= b.value.last && mentions(lines[i]);
      assert InBlockOf(lines, name, b.value.first, i);
      MentionedFirst(lines, name, mentions, k);
    } else {
      AnyBlock(lines, name, k);
    }
  }

  // A new row is refused exactly when no block is there to take it, and raises like an edit of rows.
  lemma AppendEnds(lines: seq<string>, name: string, mentions: string -> bool, added: seq<string>)
    ensures !AllClosed(lines, name) ==> AppendRow(lines, name, mentions, added).Raised?
    ensures AllClosed(lines, name) ==>
              (AppendRow(lines, name, mentions, added).Refused? <==>
                  forall k :: 0 <= k < |lines| ==> !Opens(lines[k], name))
  {
    hide Closes, Opens, Replaced, Appended;
    if AllClosed(lines, name) {
      var any: string -> bool := _ => true;
      if b :| 0 <= b < |lines| && Opens(lines[b], name) {
        AnyBlock(lines, name, b);
        assert Picks(lines, name, any, b) by {
          BlockStarts(lines, name, b);
          assert any(lines[b]);
        }
      }
    }
  }

  lemma BlockStarts(lines: seq<string>, name: string, k: nat)
    requires AllClosed(lines, name) && k < |lines| && Opens(lines[k], name)
    ensures BlockAt(lines, k).Some? && BlockAt(lines, k).value.first == k < BlockAt(lines, k).value.last
  {
  }

  lemma MentionedFirst(lines: seq<string>, name: string, mentions: string -> bool, k: nat)
    requires AllClosed(lines, name) && k < |lines| && Opens(lines[k], name)
    requires Chosen(lines, name, mentions, 0).Some?
    ensures Chosen(lines, name, mentions, 0) == BlockAt(lines, k) <==>
            && (exists i: nat :: InBlockOf(lines, name, k, i) && mentions(lines[i]))
            && (forall f: nat, i: nat :: f < k && InBlockOf(lines, name, f, i) ==> !mentions(lines[i]))
  {
    hide Closes, Opens;
    var b := Chosen(lines, name, mentions, 0).value;
    BlockStarts(lines, name, k);
    forall f: nat | f < |lines| && Opens(lines[f], name)
      ensures Picks(lines, name, mentions, f) <==> exists i: nat :: InBlockOf(lines, name, f, i) && mentions(lines[i])
    {
      PicksMentioned(lines, name, mentions, f);
    }
    if (exists i: nat :: InBlockOf(lines, name, k, i) && mentions(lines[i])) {
      assert Picks(lines, name, mentions, k);
      assert b.first <= k;
      if b.first < k {
        assert Picks(lines, name, mentions, b.first);
      }
    }
    if b.first == k {
      forall f: nat, i: nat | f < k && InBlockOf(lines, name, f, i) ensures !mentions(lines[i]) {
        assert !Picks(lines, name, mentions, f);
      }
    }
  }

  lemma PicksMentioned(lines: seq<string>, name: string, mentions: string -> bool, f: nat)
    requires AllClosed(lines, name) && f < |lines| && Opens(lines[f], name)
    ensures Picks(lines, name, mentions, f) <==> exists i: nat :: InBlockOf(lines, name, f, i) && mentions(lines[i])
  {
    hide Closes, Opens;
    BlockStarts(lines, name, f);
    if Picks(lines, name, mentions, f) {
      var b := BlockAt(lines, f).value;
      var i :| b.first <= i <= b.last && mentions(lines[i]);
      assert InBlockOf(lines, name, f, i);
    }
  }

  lemma AnyBlock(lines: seq<string>, name: string, k: nat)
    requires AllClosed(lines, name) && k < |lines| && Opens(lines[k], name)
    ensures Chosen(lines, name, _ => true, 0) == BlockAt(lines, k) <==>
            forall f :: 0 <= f < k ==> !Opens(lines[f], name)
  {
    hide Closes, Opens;
    var any: string -> bool := _ => true;
    forall f: nat | f < |lines| && Opens(lines[f], name) ensures Picks(lines, name, any, f) {
      BlockStarts(lines, name, f);
      assert any(lines[f]);
    }
    BlockStarts(lines, name, k);
    assert Picks(lines, name, any, k);
  }

  // What a backslash and the character behind it put in: nothing for a group of a plain part, the part
  // itself, what is before or behind it, one backslash; a named group raises, and all else is as it stands.
  lemma BackslashPuts(c: char, rest: string, part: string, before: string, behind: string)
    ensures var put, then_ := Expanded(['\\', c] + rest, part, before, behind), Expanded(rest, part, before, behind);
            && (then_.None? ==> put.None?)
            && (c == 'k' && rest != "" && rest[0] == '<' ==> put.None?)
            && (then_.Some? && !(c == 'k' && rest != "" && rest[0] == '<') ==>
                  put == Some((if c in "123456789" then ""
                               else if c in "0&" then part
                               else if c == '`' then before
                               else if c == '\'' then behind
                               else if c == '\\' then "\\"
                               else ['\\', c]) + then_.value))
  {
    assert (['\\', c] + rest)[2..] == rest;
    assert c in "123456789" <==> '1' <= c <= '9';
  }
}
