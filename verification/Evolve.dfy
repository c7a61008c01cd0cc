// The surgery on the language's keyword tables: rows declared, moved through their stations and
// respelled, across every table file, with the files put back when an edit raises part-way.
module Evolve {
  import opened Wrappers

  datatype Station = Proposed | Admitted | Deprecated | Retired

  // `was` holds the spelling a row was renamed from.
  datatype Keyword = Keyword(word: string, context: string, status: Station, was: Option<string>)

  datatype Argument = Argument(keyword: string, context: string, at: string, named: string, status: Station)

  // A table file's member rows. What an edit of its text leaves around them is TableText's.
  datatype File = File(keywords: seq<Keyword>, arguments: seq<Argument>)

  datatype Outcome = Applied | Refused | Raised

  // ----- Counting rows -----

  function InRows(rows: seq<Keyword>, word: string, context: string): nat {
    if rows == [] then 0
    else InRows(rows[..|rows| - 1], word, context) + if Names(rows[|rows| - 1], word, context) then 1 else 0
  }

  predicate Names(row: Keyword, word: string, context: string) { row.word == word && row.context == context }

  function InCells(rows: seq<Argument>, keyword: string, context: string, at: string, named: string): nat {
    if rows == [] then 0
    else
      InCells(rows[..|rows| - 1], keyword, context, at, named)
      + if rows[|rows| - 1].(status := Proposed) == Argument(keyword, context, at, named, Proposed) then 1 else 0
  }

  // How often a keyword, or an argument, is declared across the files.
  function Declared(files: seq<File>, word: string, context: string): nat {
    if files == [] then 0
    else Declared(files[..|files| - 1], word, context) + InRows(files[|files| - 1].keywords, word, context)
  }

  function Taken(files: seq<File>, keyword: string, context: string, at: string, named: string): nat {
    if files == [] then 0
    else
      Taken(files[..|files| - 1], keyword, context, at, named)
      + InCells(files[|files| - 1].arguments, keyword, context, at, named)
  }

  // One row per keyword and context, and one per argument identity.
  ghost predicate Unique(files: seq<File>) {
    && (forall w, c :: Declared(files, w, c) <= 1)
    && (forall k, c, a, n :: Taken(files, k, c, a, n) <= 1)
  }

  // Every argument belongs to a keyword that is declared.
  ghost predicate NoOrphans(files: seq<File>) {
    forall k, c, a, n :: Taken(files, k, c, a, n) > 0 ==> Declared(files, k, c) > 0
  }

  // ----- The edits -----

  predicate HoldsKeyword(f: File, word: string, context: string) { InRows(f.keywords, word, context) > 0 }

  predicate HoldsArgument(f: File, k: string, c: string, a: string, n: string) { InCells(f.arguments, k, c, a, n) > 0 }

  predicate Mentions(f: File, context: string) {
    (exists r :: r in f.keywords && r.context == context) || (exists r :: r in f.arguments && r.context == context)
  }

  // The first file a test picks, or their number when none does.
  function FirstHolding(files: seq<File>, word: string, context: string): (at: nat)
    ensures at <= |files|
  {
    if files == [] then 0
    else if HoldsKeyword(files[0], word, context) then 0 else 1 + FirstHolding(files[1..], word, context)
  }

  function FirstTaking(files: seq<File>, k: string, c: string, a: string, n: string): (at: nat)
    ensures at <= |files|
  {
    if files == [] then 0
    else if HoldsArgument(files[0], k, c, a, n) then 0 else 1 + FirstTaking(files[1..], k, c, a, n)
  }

  function Owner(files: seq<File>, context: string): (at: nat)
    ensures at <= |files|
  {
    if files == [] then 0 else if Mentions(files[0], context) then 0 else 1 + Owner(files[1..], context)
  }

  function Restated(rows: seq<Keyword>, word: string, context: string, to: Station): seq<Keyword> {
    seq(|rows|, i requires 0 <= i < |rows| => if Names(rows[i], word, context) then rows[i].(status := to) else rows[i])
  }

  function Respelled(rows: seq<Keyword>, word: string, context: string, to: string): seq<Keyword> {
    seq(|rows|, i requires 0 <= i < |rows| =>
      if Names(rows[i], word, context) then rows[i].(word := to, was := Some(word)) else rows[i])
  }

  function Followed(rows: seq<Argument>, word: string, context: string, to: string): seq<Argument> {
    seq(|rows|, i requires 0 <= i < |rows| =>
      if rows[i].keyword == word && rows[i].context == context then rows[i].(keyword := to) else rows[i])
  }

  function FollowedAll(files: seq<File>, word: string, context: string, to: string): seq<File> {
    seq(|files|, i requires 0 <= i < |files| =>
      files[i].(arguments := Followed(files[i].arguments, word, context, to)))
  }

  function MovedCells(rows: seq<Argument>, k: string, c: string, a: string, n: string, to: Station): seq<Argument> {
    seq(|rows|, i requires 0 <= i < |rows| =>
      if rows[i].(status := Proposed) == Argument(k, c, a, n, Proposed) then rows[i].(status := to) else rows[i])
  }

  // The row a rename would respell was itself renamed before.
  function FirstRow(rows: seq<Keyword>, word: string, context: string): Option<Keyword> {
    if rows == [] then None
    else if Names(rows[0], word, context) then Some(rows[0]) else FirstRow(rows[1..], word, context)
  }

  predicate RenamedBefore(files: seq<File>, word: string, context: string) {
    var at := FirstHolding(files, word, context);
    at < |files| && FirstRow(files[at].keywords, word, context).Some?
    && FirstRow(files[at].keywords, word, context).value.was.Some?
  }

  datatype Edit =
    | Propose(word: string, context: string)
    | SetStatus(word: string, context: string, station: Station)
    | Rename(word: string, context: string, to: string)
    | ProposeArgument(keyword: string, context: string, at: string, named: string)
    | SetArgumentStatus(keyword: string, context: string, at: string, named: string, station: Station)

  predicate Refuses(files: seq<File>, e: Edit) {
    match e
    case Propose(word, context) => Declared(files, word, context) > 0 || Owner(files, context) == |files|
    case SetStatus(word, context, _) => FirstHolding(files, word, context) == |files|
    case Rename(word, context, to) =>
      FirstHolding(files, word, context) == |files| || RenamedBefore(files, word, context)
          || Declared(files, to, context) > 0
    case ProposeArgument(k, c, a, n) => Taken(files, k, c, a, n) > 0 || Owner(files, c) == |files|
    case SetArgumentStatus(k, c, a, n, _) => FirstTaking(files, k, c, a, n) == |files|
  }

  function RespelledIn(files: seq<File>, word: string, context: string, to: string): seq<File> {
    var at := FirstHolding(files, word, context);
    if at == |files| then files
    else files[at := files[at].(keywords := Respelled(files[at].keywords, word, context, to))]
  }

  function Edited(files: seq<File>, e: Edit): seq<File>
    requires !Refuses(files, e)
  {
    match e
    case Propose(word, context) =>
      var at := Owner(files, context);
      files[at := files[at].(keywords := files[at].keywords + [Keyword(word, context, Proposed, None)])]
    case SetStatus(word, context, station) =>
      var at := FirstHolding(files, word, context);
      files[at := files[at].(keywords := Restated(files[at].keywords, word, context, station))]
    case Rename(word, context, to) => FollowedAll(RespelledIn(files, word, context, to), word, context, to)
    case ProposeArgument(k, c, a, n) =>
      var at := Owner(files, c);
      files[at := files[at].(arguments := files[at].arguments + [Argument(k, c, a, n, Proposed)])]
    case SetArgumentStatus(k, c, a, n, station) =>
      var at := FirstTaking(files, k, c, a, n);
      files[at := files[at].(arguments := MovedCells(files[at].arguments, k, c, a, n, station))]
  }

  function After(files: seq<File>, e: Edit): seq<File> {
    if Refuses(files, e) then files else Edited(files, e)
  }

  // ----- What the edits do to the counts -----

  lemma {:induction false} DeclaredPut(files: seq<File>, at: nat, f: File, w: string, c: string)
    requires at < |files|
    ensures Declared(files[at := f], w, c)
            == Declared(files, w, c) - InRows(files[at].keywords, w, c) + InRows(f.keywords, w, c)
  {
    var n := |files| - 1;
    if at < n {
      DeclaredPut(files[..n], at, f, w, c);
      assert files[at := f][..n] == files[..n][at := f];
    } else {
      assert files[at := f][..n] == files[..n];
    }
  }

  lemma {:induction false} TakenPut(files: seq<File>, at: nat, f: File, k: string, c: string, a: string, n: string)
    requires at < |files|
    ensures Taken(files[at := f], k, c, a, n)
         == Taken(files, k, c, a, n) - InCells(files[at].arguments, k, c, a, n) + InCells(f.arguments, k, c, a, n)
  {
    var m := |files| - 1;
    if at < m {
      TakenPut(files[..m], at, f, k, c, a, n);
      assert files[at := f][..m] == files[..m][at := f];
    } else {
      assert files[at := f][..m] == files[..m];
    }
  }

  lemma RowAdded(rows: seq<Keyword>, row: Keyword, w: string, c: string)
    ensures InRows(rows + [row], w, c) == InRows(rows, w, c) + if Names(row, w, c) then 1 else 0
  {
    assert (rows + [row])[..|rows|] == rows;
  }

  lemma CellAdded(rows: seq<Argument>, k: string, c: string, a: string, n: string, x: Argument)
    ensures InCells(rows + [x], k, c, a, n)
         == InCells(rows, k, c, a, n) + if x.(status := Proposed) == Argument(k, c, a, n, Proposed) then 1 else 0
  {
    assert (rows + [x])[..|rows|] == rows;
  }

  lemma {:induction false} RestatedRows(rows: seq<Keyword>, word: string, context: string, to: Station, w: string,
      c: string)
    ensures InRows(Restated(rows, word, context, to), w, c) == InRows(rows, w, c)
  {
    if rows != [] {
      var n := |rows| - 1;
      RestatedRows(rows[..n], word, context, to, w, c);
      assert Restated(rows, word, context, to)[..n] == Restated(rows[..n], word, context, to);
    }
  }

  lemma {:induction false} MovedSame(rows: seq<Argument>, e: Argument, to: Station, k: string, c: string, a: string,
      n: string)
    ensures InCells(MovedCells(rows, e.keyword, e.context, e.at, e.named, to), k, c, a, n) == InCells(rows, k, c, a, n)
  {
    if rows != [] {
      var m := |rows| - 1;
      MovedSame(rows[..m], e, to, k, c, a, n);
      assert MovedCells(rows, e.keyword, e.context, e.at, e.named, to)[..m]
          == MovedCells(rows[..m], e.keyword, e.context, e.at, e.named, to);
    }
  }

  // A respelling moves every count of the old word to the new.
  function Shift(count: int, old_: int, isWord: bool, isTo: bool): int {
    if isWord then 0 else if isTo then count + old_ else count
  }

  lemma {:induction false} RespelledRows(rows: seq<Keyword>, word: string, context: string, to: string, w: string,
      c: string)
    requires to != word
    ensures InRows(Respelled(rows, word, context, to), w, c)
         == Shift(InRows(rows, w, c), InRows(rows, word, context), w == word && c == context, w == to && c == context)
  {
    if rows != [] {
      var n := |rows| - 1;
      RespelledRows(rows[..n], word, context, to, w, c);
      assert Respelled(rows, word, context, to)[..n] == Respelled(rows[..n], word, context, to);
    }
  }

  lemma {:induction false} FollowedCells(rows: seq<Argument>, word: string, context: string, to: string,
                                         k: string, c: string, a: string, n: string)
    requires to != word
    ensures InCells(Followed(rows, word, context, to), k, c, a, n)
         == Shift(InCells(rows, k, c, a, n), InCells(rows, word, context, a, n), k == word && c == context,
                  k == to && c == context)
  {
    if rows != [] {
      var m := |rows| - 1;
      FollowedCells(rows[..m], word, context, to, k, c, a, n);
      assert Followed(rows, word, context, to)[..m] == Followed(rows[..m], word, context, to);
    }
  }

  lemma {:induction false} FollowedTaken(files: seq<File>, word: string, context: string, to: string,
                                         k: string, c: string, a: string, n: string)
    requires to != word
    ensures Taken(FollowedAll(files, word, context, to), k, c, a, n)
         == Shift(Taken(files, k, c, a, n), Taken(files, word, context, a, n), k == word && c == context,
                  k == to && c == context)
    ensures forall w, x :: Declared(FollowedAll(files, word, context, to), w, x) == Declared(files, w, x)
  {
    if files != [] {
      var m := |files| - 1;
      FollowedTaken(files[..m], word, context, to, k, c, a, n);
      FollowedCells(files[m].arguments, word, context, to, k, c, a, n);
      assert FollowedAll(files, word, context, to)[..m] == FollowedAll(files[..m], word, context, to);
    }
  }

  lemma {:induction false} HoldingIsDeclared(files: seq<File>, word: string, context: string)
    ensures var at := FirstHolding(files, word, context);
            at < |files| ==> InRows(files[at].keywords, word, context) > 0
    ensures FirstHolding(files, word, context) < |files| <==> Declared(files, word, context) > 0
  {
    if files != [] {
      HoldingIsDeclared(files[1..], word, context);
      DeclaredHead(files, word, context);
    }
  }

  lemma {:induction false} DeclaredHead(files: seq<File>, w: string, c: string)
    requires files != []
    ensures Declared(files, w, c) == InRows(files[0].keywords, w, c) + Declared(files[1..], w, c)
  {
    if |files| > 1 {
      var n := |files| - 1;
      DeclaredHead(files[..n], w, c);
      assert files[..n][1..] == files[1..][..n - 1] && files[1..][n - 1] == files[n];
    }
  }

  lemma {:induction false} OneFileHolds(files: seq<File>, at: nat, w: string, c: string)
    requires at < |files|
    ensures InRows(files[at].keywords, w, c) <= Declared(files, w, c)
  {
    var n := |files| - 1;
    if at < n {
      OneFileHolds(files[..n], at, w, c);
    }
  }

  // What a respelling does across the files: the only row of the old word becomes one of the new.
  lemma RespelledDeclared(files: seq<File>, word: string, context: string, to: string, w: string, c: string)
    requires to != word && Declared(files, word, context) == 1
    ensures Declared(RespelledIn(files, word, context, to), w, c)
         == Shift(Declared(files, w, c), 1, w == word && c == context, w == to && c == context)
    ensures forall k, x, a, n :: Taken(RespelledIn(files, word, context, to), k, x, a, n) == Taken(files, k, x, a, n)
  {
    var at := FirstHolding(files, word, context);
    HoldingIsDeclared(files, word, context);
    OneFileHolds(files, at, word, context);
    var f := files[at].(keywords := Respelled(files[at].keywords, word, context, to));
    DeclaredPut(files, at, f, w, c);
    RespelledRows(files[at].keywords, word, context, to, w, c);
    forall k, x, a, n ensures Taken(files[at := f], k, x, a, n) == Taken(files, k, x, a, n) {
      TakenPut(files, at, f, k, x, a, n);
    }
  }

  // ----- What every run keeps -----

  // An argument is proposed for a keyword that is declared. The edit itself does not ask.
  predicate Belongs(files: seq<File>, e: Edit) {
    e.ProposeArgument? ==> Declared(files, e.keyword, e.context) > 0
  }

  // A rename moves the word's row, and its arguments, to the new spelling, and nothing else.
  ghost predicate Shifted(files: seq<File>, after: seq<File>, word: string, context: string, to: string) {
    && (forall w, c :: Declared(after, w, c)
                       == Shift(Declared(files, w, c), 1, w == word && c == context, w == to && c == context))
    && (forall k, c, a, n :: Taken(after, k, c, a, n)
                             == Shift(Taken(files, k, c, a, n), Taken(files, word, context, a, n),
                                      k == word && c == context, k == to && c == context))
  }

  lemma RenameShifts(files: seq<File>, word: string, context: string, to: string)
    requires Unique(files) && !Refuses(files, Rename(word, context, to))
    ensures Shifted(files, After(files, Rename(word, context, to)), word, context, to)
    ensures Declared(files, word, context) == 1 && Declared(files, to, context) == 0
  {
    hide Declared, Taken;
    HoldingIsDeclared(files, word, context);
    var respelled := RespelledIn(files, word, context, to);
    var after := FollowedAll(respelled, word, context, to);
    forall w, c
      ensures Declared(after, w, c)
              == Shift(Declared(files, w, c), 1, w == word && c == context, w == to && c == context)
    {
      RespelledDeclared(files, word, context, to, w, c);
      FollowedTaken(respelled, word, context, to, "", "", "", "");
    }
    forall k, c, a, n
      ensures Taken(after, k, c, a, n)
           == Shift(Taken(files, k, c, a, n), Taken(files, word, context, a, n), k == word && c == context,
                    k == to && c == context)
    {
      RespelledDeclared(files, word, context, to, word, context);
      FollowedTaken(respelled, word, context, to, k, c, a, n);
    }
  }

  lemma RenameKeeps(files: seq<File>, word: string, context: string, to: string)
    requires Unique(files) && NoOrphans(files) && !Refuses(files, Rename(word, context, to))
    ensures var after := After(files, Rename(word, context, to)); Unique(after) && NoOrphans(after)
  {
    hide Declared, Taken, After, Refuses;
    RenameShifts(files, word, context, to);
  }

  lemma RowsKeep(files: seq<File>, e: Edit)
    requires Unique(files) && NoOrphans(files) && !Refuses(files, e) && (e.Propose? || e.SetStatus?)
    ensures Unique(After(files, e)) && NoOrphans(After(files, e))
  {
    var at := if e.Propose? then Owner(files, e.context) else FirstHolding(files, e.word, e.context);
    var after := After(files, e);
    var f := after[at];
    assert after == files[at := f];
    forall w, c ensures Declared(files, w, c) <= Declared(after, w, c) <= 1 {
      DeclaredPut(files, at, f, w, c);
      if e.Propose? {
        RowAdded(files[at].keywords, Keyword(e.word, e.context, Proposed, None), w, c);
      } else {
        RestatedRows(files[at].keywords, e.word, e.context, e.station, w, c);
      }
    }
    forall k, c, a, n ensures Taken(after, k, c, a, n) == Taken(files, k, c, a, n) {
      TakenPut(files, at, f, k, c, a, n);
    }
  }

  lemma CellsKeep(files: seq<File>, e: Edit)
    requires Unique(files) && !Refuses(files, e) && (e.ProposeArgument? || e.SetArgumentStatus?)
    ensures Unique(After(files, e))
    ensures NoOrphans(files) ==> (NoOrphans(After(files, e)) <==> Belongs(files, e))
  {
    var at := if e.ProposeArgument? then Owner(files, e.context)
        else FirstTaking(files, e.keyword, e.context, e.at, e.named);
    var after := After(files, e);
    var f := after[at];
    assert after == files[at := f];
    forall w, c ensures Declared(after, w, c) == Declared(files, w, c) {
      DeclaredPut(files, at, f, w, c);
    }
    forall k, c, a, n
      ensures Taken(after, k, c, a, n) == Taken(files, k, c, a, n)
                + if e.ProposeArgument? && (k, c, a, n) == (e.keyword, e.context, e.at, e.named) then 1 else 0
    {
      TakenPut(files, at, f, k, c, a, n);
      if e.ProposeArgument? {
        CellAdded(files[at].arguments, k, c, a, n, Argument(e.keyword, e.context, e.at, e.named, Proposed));
      } else {
        MovedSame(files[at].arguments, Argument(e.keyword, e.context, e.at, e.named, Proposed), e.station, k, c, a, n);
      }
    }
    if e.ProposeArgument? {
      assert Taken(after, e.keyword, e.context, e.at, e.named) > 0;
    }
  }

  // Every edit keeps one row per keyword and per argument, each argument with a declared keyword,
  // so long as arguments are proposed for keywords there are; and only then.
  lemma EditKeeps(files: seq<File>, e: Edit)
    requires Unique(files) && NoOrphans(files)
    ensures Unique(After(files, e))
    ensures NoOrphans(After(files, e)) <==> Refuses(files, e) || Belongs(files, e)
  {
    if !Refuses(files, e) {
      match e {
        case Propose(_, _) => RowsKeep(files, e);
        case SetStatus(_, _, _) => RowsKeep(files, e);
        case Rename(word, context, to) => RenameKeeps(files, word, context, to);
        case ProposeArgument(_, _, _, _) => CellsKeep(files, e);
        case SetArgumentStatus(_, _, _, _, _) => CellsKeep(files, e);
      }
    }
  }

  function Run(files: seq<File>, edits: seq<Edit>): seq<File>
    decreases |edits|
  {
    if edits == [] then files else Run(After(files, edits[0]), edits[1..])
  }

  ghost predicate AllBelong(files: seq<File>, edits: seq<Edit>)
    decreases |edits|
  {
    edits == [] || (Belongs(files, edits[0]) && AllBelong(After(files, edits[0]), edits[1..]))
  }

  lemma {:induction false} RunKeeps(files: seq<File>, edits: seq<Edit>)
    requires Unique(files) && NoOrphans(files) && AllBelong(files, edits)
    ensures Unique(Run(files, edits)) && NoOrphans(Run(files, edits))
    decreases |edits|
  {
    if edits != [] {
      EditKeeps(files, edits[0]);
      RunKeeps(After(files, edits[0]), edits[1..]);
    }
  }

  // No argument of one word shares its place and name with an argument of the other.
  ghost predicate Apart(files: seq<File>, word: string, to: string, context: string) {
    forall a, n :: Taken(files, word, context, a, n) == 0 || Taken(files, to, context, a, n) == 0
  }

  // With an argument left over for the new spelling, a rename makes two rows of one identity exactly
  // when one of the old word's arguments shares its place and name.
  lemma RenameMayCollide(files: seq<File>, word: string, context: string, to: string)
    requires Unique(files) && !Refuses(files, Rename(word, context, to))
    ensures Unique(After(files, Rename(word, context, to))) <==> Apart(files, word, to, context)
  {
    hide Declared, Taken, After, Refuses;
    RenameShifts(files, word, context, to);
    var after := After(files, Rename(word, context, to));
    if Unique(after) {
      forall a, n ensures Taken(files, word, context, a, n) == 0 || Taken(files, to, context, a, n) == 0 {
        assert Taken(after, to, context, a, n) == Taken(files, to, context, a, n) + Taken(files, word, context, a, n);
        assert Taken(after, to, context, a, n) <= 1;
      }
    }
    if Apart(files, word, to, context) {
      forall k, c, a, n ensures Taken(after, k, c, a, n) <= 1 {
        assert Taken(files, word, context, a, n) == 0 || Taken(files, to, context, a, n) == 0;
        assert Taken(files, k, c, a, n) <= 1 && Taken(files, word, context, a, n) <= 1;
      }
      assert forall w, c :: Declared(after, w, c) <= 1;
    }
  }

  const SETS := Keyword("sets", "Command", Admitted, None)
  const TABLE := [File([SETS], [Argument("sets", "Command", "first", "", Admitted)])]
  const STRAY := ProposeArgument("puts", "Command", "first", "")

  lemma CountsOf(arguments: seq<Argument>, w: string, c: string, k: string, a: string, n: string)
    ensures var files := [File([SETS], arguments)];
            && Declared(files, w, c) == (if w == "sets" && c == "Command" then 1 else 0)
            && Taken(files, k, c, a, n) == InCells(arguments, k, c, a, n)
  {
    var f := File([SETS], arguments);
    var rows: seq<Keyword> := [];
    assert [f][..0] == [] && [SETS][..0] == rows;
    assert InRows(rows, w, c) == 0;
    assert InRows([SETS], w, c) == if w == "sets" && c == "Command" then 1 else 0;
  }

  lemma TableCounts(k: string, c: string, a: string, n: string)
    ensures Taken(TABLE, k, c, a, n) == if (k, c, a, n) == ("sets", "Command", "first", "") then 1 else 0
  {
    var cell := Argument("sets", "Command", "first", "", Admitted);
    CountsOf([cell], k, c, k, a, n);
    assert [cell][..0] == [];
  }

  // An argument proposed for a word no table declares is taken, and a rename to that word then makes
  // two rows of one identity.
  lemma StrayArgumentCollides()
    ensures Unique(TABLE) && NoOrphans(TABLE)
    ensures !NoOrphans(After(TABLE, STRAY)) && Unique(After(TABLE, STRAY))
    ensures !Refuses(After(TABLE, STRAY), Rename("sets", "Command", "puts"))
    ensures !Unique(After(After(TABLE, STRAY), Rename("sets", "Command", "puts")))
  {
    forall k, c, a, n
      ensures Taken(TABLE, k, c, a, n) == if (k, c, a, n) == ("sets", "Command", "first", "") then 1 else 0
    {
      TableCounts(k, c, a, n);
    }
    forall w, c ensures Declared(TABLE, w, c) == if w == "sets" && c == "Command" then 1 else 0 {
      CountsOf(TABLE[0].arguments, w, c, "", "", "");
    }
    assert Unique(TABLE) && NoOrphans(TABLE);
    assert SETS in TABLE[0].keywords;
    assert Owner(TABLE, "Command") == 0 && !Refuses(TABLE, STRAY) && !Belongs(TABLE, STRAY);
    EditKeeps(TABLE, STRAY);
    RenameCollides();
  }

  lemma RenameCollides()
    requires Unique(After(TABLE, STRAY)) && Owner(TABLE, "Command") == 0 && !Refuses(TABLE, STRAY)
    ensures !Refuses(After(TABLE, STRAY), Rename("sets", "Command", "puts"))
    ensures !Unique(After(After(TABLE, STRAY), Rename("sets", "Command", "puts")))
  {
    var cell, more :=
        Argument("sets", "Command", "first", "", Admitted), Argument("puts", "Command", "first", "", Proposed);
    var stray := [File([SETS], [cell, more])];
    assert After(TABLE, STRAY) == stray by { assert TABLE[0].arguments + [more] == [cell, more]; }
    CountsOf([cell, more], "sets", "Command", "sets", "first", "");
    CountsOf([cell, more], "puts", "Command", "puts", "first", "");
    assert [cell, more][..1] == [cell] && [cell][..0] == [];
    assert InCells([cell, more], "sets", "Command", "first", "") == 1;
    assert InCells([cell, more], "puts", "Command", "first", "") == 1;
    hide InCells, Declared, Taken;
    HoldingIsDeclared(stray, "sets", "Command");
    assert FirstRow([SETS], "sets", "Command") == Some(SETS);
    RenameMayCollide(stray, "sets", "Command", "puts");
    assert !Apart(stray, "sets", "puts", "Command");
  }

  // The row of a word holds the spelling it was renamed from.
  predicate Renamed(files: seq<File>, word: string, context: string, was: string) {
    var at := FirstHolding(files, word, context);
    at < |files| && FirstRow(files[at].keywords, word, context).Some?
    && FirstRow(files[at].keywords, word, context).value.was == Some(was)
  }

  // Two lists of rows that agree on a word's first row, but for its station.
  predicate SameRow(rows: seq<Keyword>, after: seq<Keyword>, word: string, context: string) {
    var row, now := FirstRow(rows, word, context), FirstRow(after, word, context);
    row.Some? == now.Some? && (row.Some? ==> row.value.was == now.value.was)
  }

  lemma {:induction false} HeldIsFirst(rows: seq<Keyword>, word: string, context: string)
    ensures InRows(rows, word, context) > 0 <==> FirstRow(rows, word, context).Some?
  {
    if rows != [] {
      InRowsHead(rows, word, context);
      HeldIsFirst(rows[1..], word, context);
    }
  }

  lemma {:induction false} SameRowsKeep(files: seq<File>, after: seq<File>, word: string, context: string, was: string)
    requires |files| == |after|
    requires forall i :: 0 <= i < |files| ==> SameRow(files[i].keywords, after[i].keywords, word, context)
    ensures Renamed(files, word, context, was) ==> Renamed(after, word, context, was)
  {
    if files != [] {
      HeldIsFirst(files[0].keywords, word, context);
      HeldIsFirst(after[0].keywords, word, context);
      assert SameRow(files[0].keywords, after[0].keywords, word, context);
      SameRowsKeep(files[1..], after[1..], word, context, was);
    }
  }

  lemma {:induction false} AddedSame(rows: seq<Keyword>, row: Keyword, word: string, context: string)
    requires !Names(row, word, context)
    ensures SameRow(rows, rows + [row], word, context)
  {
    if rows == [] {
      assert [row][1..] == [] && rows + [row] == [row];
    } else {
      AddedSame(rows[1..], row, word, context);
      assert (rows + [row])[1..] == rows[1..] + [row];
    }
  }

  lemma {:induction false} RestatedSame(rows: seq<Keyword>, w: string, c: string, to: Station, word: string,
      context: string)
    ensures SameRow(rows, Restated(rows, w, c, to), word, context)
  {
    if rows != [] {
      RestatedSame(rows[1..], w, c, to, word, context);
      assert Restated(rows, w, c, to)[1..] == Restated(rows[1..], w, c, to);
    }
  }

  lemma {:induction false} RespelledSame(rows: seq<Keyword>, w: string, c: string, to: string, word: string,
      context: string)
    requires (w != word && to != word) || c != context
    ensures SameRow(rows, Respelled(rows, w, c, to), word, context)
  {
    if rows != [] {
      RespelledSame(rows[1..], w, c, to, word, context);
      assert Respelled(rows, w, c, to)[1..] == Respelled(rows[1..], w, c, to);
    }
  }

  lemma RenamedIsDeclared(files: seq<File>, word: string, context: string, was: string)
    requires Renamed(files, word, context, was)
    ensures Declared(files, word, context) > 0 && RenamedBefore(files, word, context)
    ensures forall further :: Refuses(files, Rename(word, context, further))
  {
    HoldingIsDeclared(files, word, context);
  }

  // No edit touches what a word was.
  lemma RenamedStays(files: seq<File>, e: Edit, word: string, context: string, was: string)
    requires Renamed(files, word, context, was)
    ensures Renamed(After(files, e), word, context, was)
  {
    RenamedIsDeclared(files, word, context, was);
    hide Renamed, Declared, SameRow, RenamedBefore;
    if !Refuses(files, e) {
      var after := After(files, e);
      forall i | 0 <= i < |files| ensures SameRow(files[i].keywords, after[i].keywords, word, context) {
        KeywordsSame(files, e, i, word, context);
      }
      SameRowsKeep(files, after, word, context, was);
    }
  }

  lemma KeywordsSame(files: seq<File>, e: Edit, i: nat, word: string, context: string)
    requires !Refuses(files, e) && i < |files| && Declared(files, word, context) > 0
    requires forall further :: Refuses(files, Rename(word, context, further))
    ensures |After(files, e)| == |files|
    ensures SameRow(files[i].keywords, After(files, e)[i].keywords, word, context)
  {
    hide Declared, FirstRow, InRows, Taken;
    var rows := files[i].keywords;
    match e
    case Propose(w, c) => AddedSame(rows, Keyword(w, c, Proposed, None), word, context);
    case SetStatus(w, c, station) => RestatedSame(rows, w, c, station, word, context);
    case Rename(w, c, to) => RespelledSame(rows, w, c, to, word, context);
    case ProposeArgument(_, _, _, _) =>
    case SetArgumentStatus(_, _, _, _, _) =>
  }

  lemma {:induction false} RenamedForGood(files: seq<File>, edits: seq<Edit>, word: string, context: string,
      was: string)
    requires Renamed(files, word, context, was)
    ensures Renamed(Run(files, edits), word, context, was)
    decreases |edits|
  {
    if edits != [] {
      RenamedStays(files, edits[0], word, context, was);
      RenamedForGood(After(files, edits[0]), edits[1..], word, context, was);
    }
  }

  // A word renamed is renamed once: whatever edits follow, its row keeps the spelling it was renamed
  // from, and from its new spelling it goes no further.
  lemma OneHop(files: seq<File>, word: string, context: string, to: string, edits: seq<Edit>)
    requires !Refuses(files, Rename(word, context, to))
    ensures var after := Run(After(files, Rename(word, context, to)), edits);
            Renamed(after, to, context, word) && forall further :: Refuses(after, Rename(to, context, further))
  {
    var at, now := FirstHolding(files, word, context), After(files, Rename(word, context, to));
    HoldingIsDeclared(files, word, context);
    HoldingIsDeclared(files, to, context);
    NewWordHeldThere(files, word, context, to);
    FirstRespelled(files[at].keywords, word, context, to);
    assert Renamed(now, to, context, word);
    RenamedForGood(now, edits, to, context, word);
    RenamedIsDeclared(Run(now, edits), to, context, word);
  }

  lemma {:induction false} FirstRespelled(rows: seq<Keyword>, word: string, context: string, to: string)
    requires InRows(rows, word, context) > 0 && InRows(rows, to, context) == 0
    ensures FirstRow(Respelled(rows, word, context, to), to, context).Some?
    ensures FirstRow(Respelled(rows, word, context, to), to, context).value.was == Some(word)
  {
    InRowsHead(rows, word, context);
    InRowsHead(rows, to, context);
    assert Respelled(rows, word, context, to)[1..] == Respelled(rows[1..], word, context, to);
    if !Names(rows[0], word, context) {
      FirstRespelled(rows[1..], word, context, to);
    }
  }

  lemma {:induction false} InRowsHead(rows: seq<Keyword>, w: string, c: string)
    requires rows != []
    ensures InRows(rows, w, c) == (if Names(rows[0], w, c) then 1 else 0) + InRows(rows[1..], w, c)
  {
    if |rows| > 1 {
      var n := |rows| - 1;
      InRowsHead(rows[..n], w, c);
      assert rows[..n][1..] == rows[1..][..n - 1] && rows[1..][n - 1] == rows[n];
    }
  }

  lemma {:induction false} NewWordHeldThere(files: seq<File>, word: string, context: string, to: string)
    requires FirstHolding(files, word, context) < |files| && Declared(files, to, context) == 0 && to != word
    ensures var at := FirstHolding(files, word, context);
            && FirstHolding(FollowedAll(RespelledIn(files, word, context, to), word, context, to), to, context) == at
            && InRows(files[at].keywords, to, context) == 0 && InRows(files[at].keywords, word, context) > 0
  {
    var at, rest := FirstHolding(files, word, context), files[1..];
    var after := FollowedAll(RespelledIn(files, word, context, to), word, context, to);
    DeclaredHead(files, to, context);
    if at == 0 {
      RespelledRows(files[0].keywords, word, context, to, to, context);
    } else {
      NewWordHeldThere(rest, word, context, to);
      assert RespelledIn(files, word, context, to)[1..] == RespelledIn(rest, word, context, to);
      assert after[1..] == FollowedAll(RespelledIn(rest, word, context, to), word, context, to);
    }
  }

  // ----- What each edit writes, row by row -----

  lemma {:induction false} NamedIsHeld(rows: seq<Keyword>, j: nat, word: string, context: string)
    requires j < |rows| && Names(rows[j], word, context)
    ensures InRows(rows, word, context) > 0
  {
    var n := |rows| - 1;
    if j < n {
      NamedIsHeld(rows[..n], j, word, context);
    }
  }

  lemma {:induction false} HeldIsNamed(rows: seq<Keyword>, word: string, context: string) returns (j: nat)
    requires InRows(rows, word, context) > 0
    ensures j < |rows| && Names(rows[j], word, context)
  {
    var n := |rows| - 1;
    if Names(rows[n], word, context) {
      j := n;
    } else {
      j := HeldIsNamed(rows[..n], word, context);
    }
  }

  lemma {:induction false} TwoFilesHold(files: seq<File>, i: nat, j: nat, word: string, context: string)
    requires i < j < |files|
    ensures InRows(files[i].keywords, word, context) + InRows(files[j].keywords, word, context)
            <= Declared(files, word, context)
  {
    var n := |files| - 1;
    if j < n {
      TwoFilesHold(files[..n], i, j, word, context);
    } else {
      OneFileHolds(files[..n], i, word, context);
    }
  }

  // A word's rows are all in the first file that holds one.
  lemma OnlyThere(files: seq<File>, word: string, context: string)
    requires Declared(files, word, context) == 1
    ensures var at := FirstHolding(files, word, context);
            at < |files| && forall i :: 0 <= i < |files| && i != at ==> InRows(files[i].keywords, word, context) == 0
  {
    hide InRows;
    var at := FirstHolding(files, word, context);
    HoldingIsDeclared(files, word, context);
    forall i | 0 <= i < |files| && i != at ensures InRows(files[i].keywords, word, context) == 0 {
      TwoFilesHold(files, if i < at then i else at, if i < at then at else i, word, context);
    }
  }

  // The row of a word and its context with a new station, and every other row and argument as it was.
  lemma SetStatusSets(files: seq<File>, word: string, context: string, station: Station)
    requires Unique(files) && !Refuses(files, SetStatus(word, context, station))
    ensures var after := After(files, SetStatus(word, context, station));
            && |after| == |files|
            && (exists i, j :: 0 <= i < |files| && 0 <= j < |files[i].keywords|
                               && files[i].keywords[j].word == word && files[i].keywords[j].context == context)
            && forall i :: 0 <= i < |files| ==>
                 && after[i].arguments == files[i].arguments && |after[i].keywords| == |files[i].keywords|
                 && forall j :: 0 <= j < |files[i].keywords| ==>
                      var row := files[i].keywords[j];
                      after[i].keywords[j]
                      == if row.word == word && row.context == context then Keyword(word, context, station, row.was)
                          else row
  {
    hide Declared, InRows;
    var at := FirstHolding(files, word, context);
    HoldingIsDeclared(files, word, context);
    OnlyThere(files, word, context);
    var k := HeldIsNamed(files[at].keywords, word, context);
    assert files[at].keywords[k].word == word;
    forall i, j | 0 <= i < |files| && 0 <= j < |files[i].keywords| && i != at
      ensures !Names(files[i].keywords[j], word, context)
    {
      if Names(files[i].keywords[j], word, context) {
        NamedIsHeld(files[i].keywords, j, word, context);
      }
    }
  }

  // A rename respells the row and says what it was, keeping its station, and respells the keyword of
  // every argument of the word in its context; every other row and argument is as it was.
  lemma RenameRespells(files: seq<File>, word: string, context: string, to: string)
    requires Unique(files) && !Refuses(files, Rename(word, context, to))
    ensures var after := After(files, Rename(word, context, to));
            && |after| == |files|
            && forall i :: 0 <= i < |files| ==>
                 && |after[i].keywords| == |files[i].keywords| && |after[i].arguments| == |files[i].arguments|
                 && (forall j :: 0 <= j < |files[i].keywords| ==>
                       var row := files[i].keywords[j];
                       after[i].keywords[j]
                       == if row.word == word && row.context == context
                           then Keyword(to, context, row.status, Some(word)) else row)
                 && (forall j :: 0 <= j < |files[i].arguments| ==>
                       var cell := files[i].arguments[j];
                       after[i].arguments[j]
                       == if cell.keyword == word && cell.context == context
                          then Argument(to, context, cell.at, cell.named, cell.status) else cell)
  {
    hide Declared, InRows;
    HoldingIsDeclared(files, word, context);
    OnlyThere(files, word, context);
    var at := FirstHolding(files, word, context);
    forall i, j | 0 <= i < |files| && 0 <= j < |files[i].keywords| && i != at
      ensures !Names(files[i].keywords[j], word, context)
    {
      if Names(files[i].keywords[j], word, context) {
        NamedIsHeld(files[i].keywords, j, word, context);
      }
    }
  }

  // A context's file: the first with a row or an argument of it.
  predicate OwnedBy(files: seq<File>, context: string, at: nat) {
    at < |files| && Mentions(files[at], context) && forall i :: 0 <= i < at ==> !Mentions(files[i], context)
  }

  lemma {:induction false} OwnerIsFirst(files: seq<File>, context: string)
    ensures Owner(files, context) < |files| ==> OwnedBy(files, context, Owner(files, context))
    ensures Owner(files, context) == |files| ==> forall i :: 0 <= i < |files| ==> !Mentions(files[i], context)
  {
    hide Mentions;
    if files != [] {
      OwnerIsFirst(files[1..], context);
      assert forall i :: 0 < i < |files| ==> files[i] == files[1..][i - 1];
    }
  }

  // A row proposed goes, as proposed and never yet renamed, to the end of the file that owns its
  // context; every other file is as it was. It is refused when the word is declared there or no file
  // owns the context.
  lemma ProposeAdds(files: seq<File>, word: string, context: string)
    ensures Refuses(files, Propose(word, context)) <==>
            || (exists i, j :: 0 <= i < |files| && 0 <= j < |files[i].keywords|
                               && files[i].keywords[j].word == word && files[i].keywords[j].context == context)
            || (forall i :: 0 <= i < |files| ==> !Mentions(files[i], context))
    ensures !Refuses(files, Propose(word, context)) ==>
              exists at: nat :: OwnedBy(files, context, at)
                && After(files, Propose(word, context))
                   == files[at := File(files[at].keywords + [Keyword(word, context, Proposed, None)],
                       files[at].arguments)]
  {
    hide Declared, InRows, Mentions;
    OwnerIsFirst(files, context);
    HoldingIsDeclared(files, word, context);
    var at := FirstHolding(files, word, context);
    if at < |files| {
      var j := HeldIsNamed(files[at].keywords, word, context);
      assert files[at].keywords[j].word == word;
    }
    if i, j :| 0 <= i < |files| && 0 <= j < |files[i].keywords|
               && files[i].keywords[j].word == word && files[i].keywords[j].context == context {
      NamedIsHeld(files[i].keywords, j, word, context);
      OneFileHolds(files, i, word, context);
    }
  }

  predicate IsCell(x: Argument, k: string, c: string, a: string, n: string) {
    x.keyword == k && x.context == c && x.at == a && x.named == n
  }

  lemma {:induction false} CellsTaken(rows: seq<Argument>, k: string, c: string, a: string, n: string)
    ensures InCells(rows, k, c, a, n) > 0 <==> exists j :: 0 <= j < |rows| && IsCell(rows[j], k, c, a, n)
  {
    if rows != [] {
      var m := |rows| - 1;
      CellsTaken(rows[..m], k, c, a, n);
      if j :| 0 <= j < m && IsCell(rows[j], k, c, a, n) {
        assert IsCell(rows[..m][j], k, c, a, n);
      }
      if j :| 0 <= j < |rows[..m]| && IsCell(rows[..m][j], k, c, a, n) {
        assert IsCell(rows[j], k, c, a, n);
      }
      assert IsCell(rows[m], k, c, a, n) <==> rows[m].(status := Proposed) == Argument(k, c, a, n, Proposed);
    }
  }

  lemma {:induction false} OneFileTakes(files: seq<File>, at: nat, k: string, c: string, a: string, n: string)
    requires at < |files|
    ensures InCells(files[at].arguments, k, c, a, n) <= Taken(files, k, c, a, n)
  {
    var m := |files| - 1;
    if at < m {
      OneFileTakes(files[..m], at, k, c, a, n);
    }
  }

  lemma {:induction false} TwoFilesTake(files: seq<File>, i: nat, j: nat, k: string, c: string, a: string, n: string)
    requires i < j < |files|
    ensures InCells(files[i].arguments, k, c, a, n) + InCells(files[j].arguments, k, c, a, n)
            <= Taken(files, k, c, a, n)
  {
    var m := |files| - 1;
    if j < m {
      TwoFilesTake(files[..m], i, j, k, c, a, n);
    } else {
      OneFileTakes(files[..m], i, k, c, a, n);
    }
  }

  lemma {:induction false} TakingIsTaken(files: seq<File>, k: string, c: string, a: string, n: string)
    ensures var at := FirstTaking(files, k, c, a, n);
            && (at < |files| ==> InCells(files[at].arguments, k, c, a, n) > 0)
            && (at == |files| ==> forall i :: 0 <= i < |files| ==> InCells(files[i].arguments, k, c, a, n) == 0)
  {
    hide InCells;
    if files != [] {
      TakingIsTaken(files[1..], k, c, a, n);
      assert forall i :: 0 < i < |files| ==> files[i] == files[1..][i - 1];
    }
  }

  lemma {:induction false} NoneTaken(files: seq<File>, k: string, c: string, a: string, n: string)
    requires Taken(files, k, c, a, n) > 0
    ensures exists i :: 0 <= i < |files| && InCells(files[i].arguments, k, c, a, n) > 0
  {
    var m := |files| - 1;
    if InCells(files[m].arguments, k, c, a, n) == 0 {
      NoneTaken(files[..m], k, c, a, n);
    }
  }

  // An argument's row with a new station, and every other row and keyword as it was.
  lemma SetArgumentStatusSets(files: seq<File>, k: string, c: string, a: string, n: string, station: Station)
    requires Unique(files) && !Refuses(files, SetArgumentStatus(k, c, a, n, station))
    ensures var after := After(files, SetArgumentStatus(k, c, a, n, station));
            && |after| == |files|
            && (exists i, j ::
                  0 <= i < |files| && 0 <= j < |files[i].arguments| && IsCell(files[i].arguments[j], k, c, a, n))
            && forall i :: 0 <= i < |files| ==>
                 && after[i].keywords == files[i].keywords && |after[i].arguments| == |files[i].arguments|
                 && forall j :: 0 <= j < |files[i].arguments| ==>
                      var cell := files[i].arguments[j];
                      after[i].arguments[j] == if IsCell(cell, k, c, a, n) then Argument(k, c, a, n, station) else cell
  {
    hide InCells, Taken;
    var at := FirstTaking(files, k, c, a, n);
    TakingIsTaken(files, k, c, a, n);
    CellsTaken(files[at].arguments, k, c, a, n);
    forall i, j | 0 <= i < |files| && 0 <= j < |files[i].arguments| && i != at
      ensures !IsCell(files[i].arguments[j], k, c, a, n)
    {
      TwoFilesTake(files, if i < at then i else at, if i < at then at else i, k, c, a, n);
      CellsTaken(files[i].arguments, k, c, a, n);
    }
  }

  // An argument proposed goes, as proposed, to the end of the file that owns its context; every other
  // file is as it was. It is refused when it is there already or no file owns the context.
  lemma ProposeArgumentAdds(files: seq<File>, k: string, c: string, a: string, n: string)
    ensures Refuses(files, ProposeArgument(k, c, a, n)) <==>
            || (exists i, j ::
                  0 <= i < |files| && 0 <= j < |files[i].arguments| && IsCell(files[i].arguments[j], k, c, a, n))
            || (forall i :: 0 <= i < |files| ==> !Mentions(files[i], c))
    ensures !Refuses(files, ProposeArgument(k, c, a, n)) ==>
              exists at: nat :: OwnedBy(files, c, at)
                && After(files, ProposeArgument(k, c, a, n))
                   == files[at := File(files[at].keywords, files[at].arguments + [Argument(k, c, a, n, Proposed)])]
  {
    hide Taken, InCells, Mentions;
    OwnerIsFirst(files, c);
    if Taken(files, k, c, a, n) > 0 {
      NoneTaken(files, k, c, a, n);
      var i :| 0 <= i < |files| && InCells(files[i].arguments, k, c, a, n) > 0;
      CellsTaken(files[i].arguments, k, c, a, n);
    }
    if i, j :| 0 <= i < |files| && 0 <= j < |files[i].arguments| && IsCell(files[i].arguments[j], k, c, a, n) {
      CellsTaken(files[i].arguments, k, c, a, n);
      OneFileTakes(files, i, k, c, a, n);
    }
  }

  predicate HasRow(files: seq<File>, word: string, context: string) {
    exists i, j :: 0 <= i < |files| && 0 <= j < |files[i].keywords|
                   && files[i].keywords[j].word == word && files[i].keywords[j].context == context
  }

  lemma DeclaredHasRow(files: seq<File>, word: string, context: string)
    ensures Declared(files, word, context) > 0 <==> HasRow(files, word, context)
  {
    hide InRows, Declared;
    HoldingIsDeclared(files, word, context);
    var at := FirstHolding(files, word, context);
    if at < |files| {
      var j := HeldIsNamed(files[at].keywords, word, context);
      assert files[at].keywords[j].word == word;
    }
    if i, j :| 0 <= i < |files| && 0 <= j < |files[i].keywords|
               && files[i].keywords[j].word == word && files[i].keywords[j].context == context {
      NamedIsHeld(files[i].keywords, j, word, context);
      OneFileHolds(files, i, word, context);
    }
  }

  lemma {:induction false} FirstRowIsNamed(rows: seq<Keyword>, word: string, context: string)
    ensures FirstRow(rows, word, context).Some? <==> InRows(rows, word, context) > 0
    ensures FirstRow(rows, word, context).Some? ==>
              exists j :: 0 <= j < |rows| && rows[j] == FirstRow(rows, word, context).value
                  && Names(rows[j], word, context)
  {
    HeldIsFirst(rows, word, context);
    if rows != [] && !Names(rows[0], word, context) {
      FirstRowIsNamed(rows[1..], word, context);
      InRowsHead(rows, word, context);
      var found := FirstRow(rows, word, context);
      if j :| found.Some? && 0 <= j < |rows[1..]| && rows[1..][j] == found.value && Names(rows[1..][j], word, context) {
        assert rows[j + 1] == rows[1..][j];
      }
    } else if rows != [] {
      assert rows[0] == FirstRow(rows, word, context).value;
    }
  }

  // A station is set of what is there. A rename is refused when the word is not there, was itself
  // renamed, or would land on a word that is there; and for nothing else.
  lemma EditsRefused(files: seq<File>, word: string, context: string, to: string, station: Station)
    requires Unique(files)
    ensures Refuses(files, SetStatus(word, context, station)) <==> !HasRow(files, word, context)
    ensures Refuses(files, Rename(word, context, to)) <==>
            || !HasRow(files, word, context) || HasRow(files, to, context)
            || (exists i, j :: 0 <= i < |files| && 0 <= j < |files[i].keywords| && files[i].keywords[j].word == word
                               && files[i].keywords[j].context == context && files[i].keywords[j].was.Some?)
  {
    hide InRows, Declared, FirstRow;
    DeclaredHasRow(files, word, context);
    DeclaredHasRow(files, to, context);
    HoldingIsDeclared(files, word, context);
    var at := FirstHolding(files, word, context);
    if at < |files| {
      var rows := files[at].keywords;
      OnlyThere(files, word, context);
      FirstRowIsNamed(rows, word, context);
      var k :| 0 <= k < |rows| && rows[k] == FirstRow(rows, word, context).value && Names(rows[k], word, context);
      forall i, j | 0 <= i < |files| && 0 <= j < |files[i].keywords| && Names(files[i].keywords[j], word, context)
        ensures i == at && j == k
      {
        NamedIsHeld(files[i].keywords, j, word, context);
        OneFileHolds(files, at, word, context);
        if i == at && j != k {
          NamedOnce(rows, if j < k then j else k, if j < k then k else j, word, context);
        }
      }
    }
  }

  lemma {:induction false} NamedOnce(rows: seq<Keyword>, i: nat, j: nat, word: string, context: string)
    requires i < j < |rows| && Names(rows[i], word, context) && Names(rows[j], word, context)
    ensures InRows(rows, word, context) >= 2
  {
    var n := |rows| - 1;
    if j < n {
      NamedOnce(rows[..n], i, j, word, context);
    } else {
      NamedIsHeld(rows[..n], i, word, context);
    }
  }

  // ----- The files themselves -----

  lemma NoneFollowed(files: seq<File>, word: string, context: string, to: string)
    ensures files == FollowedAll(files[..0], word, context, to) + files[0..]
  {
  }

  lemma OneFollowed(before: seq<File>, now: seq<File>, k: nat, word: string, context: string, to: string)
    requires k < |before| && now == FollowedAll(before[..k], word, context, to) + before[k..]
    ensures |now| == |before| && now[k] == before[k]
    ensures now[k := now[k].(arguments := Followed(now[k].arguments, word, context, to))]
         == FollowedAll(before[..k + 1], word, context, to) + before[k + 1..]
    ensures Followed(now[k].arguments, word, context, to) == now[k].arguments ==>
              now == FollowedAll(before[..k + 1], word, context, to) + before[k + 1..]
  {
    var next := FollowedAll(before[..k + 1], word, context, to);
    assert next == FollowedAll(before[..k], word, context, to)
                   + [before[k].(arguments := Followed(before[k].arguments, word, context, to))];
    assert before[k..] == [before[k]] + before[k + 1..];
  }

  class Tables {
    var files: seq<File>

    constructor (files: seq<File>)
      ensures this.files == files
    {
      this.files := files;
    }

    // Respells an argument's keyword in every file that holds one, writing a file only when it
    // changes. `raisesAt` is the write that raises, if one does, and leaves its file torn.
    method Cascade(word: string, context: string, to: string, raisesAt: Option<nat>, torn: File) returns (raised: bool)
      modifies this
      ensures !raised ==> files == FollowedAll(old(files), word, context, to)
      ensures |files| == |old(files)|
      ensures raisesAt.None? ==> !raised
    {
      hide FollowedAll;
      var k, writes := 0, 0;
      NoneFollowed(files, word, context, to);
      while k < |files|
        invariant 0 <= k <= |files| == |old(files)|
        invariant files == FollowedAll(old(files)[..k], word, context, to) + old(files)[k..]
      {
        var updated := Followed(files[k].arguments, word, context, to);
        OneFollowed(old(files), files, k, word, context, to);
        if updated != files[k].arguments {
          if raisesAt == Some(writes) {
            files := files[k := torn];
            return true;
          }
          files := files[k := files[k].(arguments := updated)];
          writes := writes + 1;
        }
        k := k + 1;
      }
      assert old(files)[..k] == old(files) && old(files)[k..] == [];
      assert files == FollowedAll(old(files), word, context, to);
      raised := false;
    }

    // A rename as its command runs it: the keyword's row first, then the arguments', and every file put
    // back if a write raises part-way.
    method RenameOrRestore(word: string, context: string, to: string, raisesAt: Option<nat>, torn: File)
      returns (outcome: Outcome)
      modifies this
      ensures outcome == Refused <==> Refuses(old(files), Rename(word, context, to))
      ensures outcome == Applied ==> files == After(old(files), Rename(word, context, to))
      ensures outcome != Applied ==> files == old(files)
      ensures raisesAt.None? ==> outcome != Raised
      ensures raisesAt == Some(0) ==> outcome != Applied
    {
      var snapshot := files;
      if Refuses(files, Rename(word, context, to)) {
        return Refused;
      }
      var raised := raisesAt == Some(0);
      if raised {
        files := files[FirstHolding(files, word, context) := torn];
      } else {
        files := RespelledIn(files, word, context, to);
        raised := Cascade(word, context, to, if raisesAt.Some? then Some(raisesAt.value - 1) else None, torn);
      }
      if raised {
        files := snapshot;
        return Raised;
      }
      outcome := Applied;
    }
  }
}
