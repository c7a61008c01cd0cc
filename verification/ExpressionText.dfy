// The text of a leaf expression: the parser's steps in their order, a careful printer whose text the
// parser reads back as the same tree, and a plain one, with the trees whose text it reads back.
module ExpressionText {
  import opened Wrappers

  // `Decimal` keeps a decimal literal as it is spelled.
  datatype Tree =
    | Whole(n: int)
    | Decimal(spelled: string)
    | Text(s: string)
    | Word(word: string)
    | Path(path: string)
    | Call(receiver: Tree, suffix: string)
    | Infix(op: char, left: Tree, right: Tree)

  const ADDITIVE := ['+', '-']
  const MULTIPLICATIVE := ['*', '/']
  const SIGN_TESTS := ["positive?", "negative?", "zero?"]
  const RECEIVER_SUFFIXES :=
    ["empty?", "to_s", "size", "first", "last", "present?", "blank?", "set?", "unset?", "strip", "lstrip", "rstrip"]
  const KEYWORDS := ["true", "false", "nil"]

  predicate Digit(c: char) { '0' <= c <= '9' }
  predicate Alnum(c: char) { Digit(c) || 'a' <= c <= 'z' || 'A' <= c <= 'Z' }
  predicate Space(c: char) { c == ' ' || '\t' <= c <= '\r' }
  predicate Quote(c: char) { c == '"' || c == '\'' }

  // A final character that ends an operand.
  predicate OperandEnd(c: char) { Alnum(c) || c == '_' || c == ')' || c == ']' || Quote(c) }

  function Strip(s: string): (r: string)
    ensures |r| <= |s|
    ensures s != "" && !Space(s[0]) && !Space(s[|s| - 1]) ==> r == s
  {
    if s == "" then s
    else if Space(s[0]) then Strip(s[1..])
    else if Space(s[|s| - 1]) then Strip(s[..|s| - 1])
    else s
  }

  // ----- Scanning -----

  // Where a scan stands: the open quote, the nesting depth, the last character that is no space.
  datatype Scan = Scan(quote: Option<char>, depth: int, last: char)

  const START := Scan(None, 0, ' ')

  predicate Plain(st: Scan, c: char) { st.quote.None? && !Quote(c) }

  function Delta(c: char): int {
    if c == '(' || c == '{' || c == '[' then 1 else if c == ')' || c == '}' || c == ']' then -1 else 0
  }

  function NextQuote(quote: Option<char>, c: char): Option<char> {
    if quote.Some? then (if c == quote.value then None else quote) else if Quote(c) then Some(c) else None
  }

  function Step(st: Scan, c: char): Scan {
    Scan(NextQuote(st.quote, c), if Plain(st, c) then st.depth + Delta(c) else st.depth,
         if Space(c) then st.last else c)
  }

  function After(st: Scan, s: string): Scan
    decreases |s|
  {
    if s == "" then st else After(Step(st, s[0]), s[1..])
  }

  // A top-level operator; a `-` only after an operand.
  predicate Splits(st: Scan, c: char, ops: seq<char>) {
    Plain(st, c) && Step(st, c).depth == 0 && c in ops && (c == '-' ==> OperandEnd(st.last))
  }

  function LastSplit(st: Scan, s: string, ops: seq<char>): (at: Option<nat>)
    ensures at.Some? ==> at.value < |s| && s[at.value] in ops
    decreases |s|
  {
    if s == "" then None
    else
      var later := LastSplit(Step(st, s[0]), s[1..], ops);
      if later.Some? then Some(later.value + 1) else if Splits(st, s[0], ops) then Some(0) else None
  }

  // The scan as the parser runs it, left to right.
  method SplitLastBinary(s: string, ops: seq<char>) returns (found: Option<nat>)
    ensures found == LastSplit(START, s, ops)
  {
    found := None;
    var st := START;
    var k := 0;
    assert s[0..] == s;
    while k < |s|
      invariant 0 <= k <= |s|
      invariant LastSplit(START, s, ops) ==
                var later := LastSplit(st, s[k..], ops); if later.Some? then Some(k + later.value) else found
    {
      if Splits(st, s[k], ops) {
        found := Some(k);
      }
      st := Step(st, s[k]);
      k := k + 1;
    }
  }

  // The `)` that balances a `(` already open.
  function Closing(s: string, quote: Option<char>, depth: int): (at: Option<nat>)
    ensures at.Some? ==> at.value < |s|
  {
    if s == "" then None
    else
      var plain := quote.None? && !Quote(s[0]);
      var now := depth + if plain && s[0] == '(' then 1 else if plain && s[0] == ')' then -1 else 0;
      if plain && s[0] == ')' && now == 0 then Some(0)
      else
        var later := Closing(s[1..], NextQuote(quote, s[0]), now);
        if later.Some? then Some(later.value + 1) else None
  }

  // ----- Parsing -----

  predicate EndsWith(s: string, tail: string) {
    |tail| <= |s| && s[|s| - |tail|..] == tail
  }

  predicate Quoted(e: string) {
    |e| >= 2 && Quote(e[0]) && e[|e| - 1] == e[0]
  }

  predicate Digits(s: string) { forall c :: c in s ==> Digit(c) }

  function Unsigned(e: string): string {
    if e != "" && e[0] == '-' then e[1..] else e
  }

  predicate IsWhole(e: string) { Unsigned(e) != "" && Digits(Unsigned(e)) }

  predicate IsDecimal(e: string) {
    exists k :: 0 <= k < |Unsigned(e)| - 1 && Unsigned(e)[k] == '.' && Digits(Unsigned(e)[..k])
        && Digits(Unsigned(e)[k + 1..])
  }

  function NatOf(s: string): nat
    requires Digits(s)
  {
    if s == "" then 0
    else
      assert Digit(s[|s| - 1]);
      NatOf(s[..|s| - 1]) * 10 + (s[|s| - 1] as int - '0' as int)
  }

  function Literal(e: string): Option<Tree> {
    if Quoted(e) then Some(Text(e[1..|e| - 1]))
    else if IsWhole(e) then Some(Whole(if e[0] == '-' then 0 - NatOf(Unsigned(e)) else NatOf(Unsigned(e))))
    else if IsDecimal(e) then Some(Decimal(e))
    else if e in KEYWORDS then Some(Word(e))
    else None
  }

  predicate Grouped(e: string) {
    e != "" && e[0] == '(' && Closing(e[1..], None, 1) == Some(|e| - 2)
  }

  // The suffix calls match a receiver of at least one character on one line; sign tests any.
  predicate Ends(e: string, suffix: string, lax: bool) {
    EndsWith(e, "." + suffix) && (lax || (|e| > |suffix| + 1 && '\n' !in e[..|e| - |suffix| - 1]))
  }

  function SuffixOf(e: string, suffixes: seq<string>, lax: bool): (suffix: Option<string>)
    ensures suffix.Some? ==> Ends(e, suffix.value, lax)
  {
    if suffixes == [] then None
    else if Ends(e, suffixes[0], lax) then Some(suffixes[0])
    else SuffixOf(e, suffixes[1..], lax)
  }

  function Before(e: string, suffix: string): string
    requires EndsWith(e, "." + suffix)
  {
    e[..|e| - |suffix| - 1]
  }

  // The parser's steps in their order; forms that end in a bracket other than a group are not here.
  function Parse(text: string): Tree
    decreases |text|
  {
    var e := Strip(text);
    if Ends(e, "length", false) then Call(Parse(Before(e, "length")), "size")
    else if Literal(e).Some? then Literal(e).value
    else
      var plus, times := LastSplit(START, e, ADDITIVE), LastSplit(START, e, MULTIPLICATIVE);
      if plus.Some? then Infix(e[plus.value], Parse(Strip(e[..plus.value])), Parse(Strip(e[plus.value + 1..])))
      else if times.Some? then Infix(e[times.value], Parse(Strip(e[..times.value])), Parse(Strip(e[times.value + 1..])))
      else if Grouped(e) then Parse(e[1..|e| - 1])
      else
        var sign, suffix := SuffixOf(e, SIGN_TESTS, true), SuffixOf(e, RECEIVER_SUFFIXES, false);
        if sign.Some? then Call(Parse(Before(e, sign.value)), sign.value)
        else if suffix.Some? then Call(Parse(Before(e, suffix.value)), suffix.value)
        else Path(e)
  }

  // ----- Printing -----

  function Numeral(n: nat): (s: string)
    ensures s != "" && Digits(s)
  {
    if n < 10 then ['0' + n as char] else Numeral(n / 10) + ['0' + (n % 10) as char]
  }

  predicate Suffixes(s: string) { s in SIGN_TESTS + RECEIVER_SUFFIXES }

  predicate PathChar(c: char) { Alnum(c) || c == '_' || c == '.' }

  // A path the parser leaves alone: word characters and dots, no literal, no suffix call.
  predicate Spellable(path: string) {
    && path != "" && (forall c :: c in path ==> PathChar(c))
    && !Digit(path[0]) && path[0] != '.' && path[|path| - 1] != '.'
    && path !in KEYWORDS && !EndsWith(path, ".length")
    && forall s :: s in SIGN_TESTS + RECEIVER_SUFFIXES ==> !EndsWith(path, "." + s)
  }

  predicate OneLine(t: Tree) {
    match t
    case Text(s) => '\n' !in s
    case Call(receiver, _) => OneLine(receiver)
    case Infix(_, left, right) => OneLine(left) && OneLine(right)
    case _ => true
  }

  predicate Printable(t: Tree) {
    match t
    case Whole(_) => true
    case Decimal(spelled) => IsDecimal(spelled)
    case Text(s) => '"' !in s
    case Word(word) => word in KEYWORDS
    case Path(path) => Spellable(path)
    case Call(receiver, suffix) => Suffixes(suffix) && Printable(receiver)
        && (suffix in SIGN_TESTS || OneLine(receiver))
    case Infix(op, left, right) => (op in ADDITIVE || op in MULTIPLICATIVE) && Printable(left) && Printable(right)
  }

  function OpLevel(op: char): nat { if op in ADDITIVE then 1 else 2 }

  function Level(t: Tree): nat {
    if t.Infix? then OpLevel(t.op) else 3
  }

  function InParens(s: string): string { "(" + s + ")" }

  function Spaced(op: char): string { [' ', op, ' '] }

  function Signed(n: int): (s: string)
    ensures s != ""
  {
    if n < 0 then "-" + Numeral(-n) else Numeral(n)
  }

  // The text of an operand: in parentheses when it binds looser than its place. A careful printer
  // sets the few parentheses more without which a text would be misread.
  function Operand(t: Tree, level: nat, careful: bool): (s: string)
    requires Printable(t)
    ensures s != ""
    decreases t, 2
  {
    if Level(t) < level then InParens(Print(t, careful)) else Print(t, careful)
  }

  function Print(t: Tree, careful: bool): (s: string)
    requires Printable(t)
    ensures s != ""
    decreases t, 1
  {
    match t
    case Whole(n) => Signed(n)
    case Decimal(spelled) => spelled
    case Text(s) => "\"" + s + "\""
    case Word(word) => word
    case Path(path) => path
    case Call(receiver, suffix) => Operand(receiver, 3, careful) + "." + suffix
    case Infix(op, left, right) => LeftText(t, careful) + Spaced(op) + Operand(right, OpLevel(op) + 1, careful)
  }

  // Two more left operands need parentheses than precedence asks for: one that ends in `?` before a
  // `-`, and one that opens with a quote when the right one closes with it.
  predicate Misread(op: char, left: string, right: string)
    requires left != "" && right != ""
  {
    (op == '-' && left[|left| - 1] == '?') || (left[0] == '"' && right[|right| - 1] == '"')
  }

  function LeftText(t: Tree, careful: bool): (s: string)
    requires Printable(t) && t.Infix?
    ensures s != ""
    decreases t, 0
  {
    var plain, right := Operand(t.left, Level(t), careful), Operand(t.right, Level(t) + 1, careful);
    if careful && Misread(t.op, plain, right) then InParens(Print(t.left, careful)) else plain
  }

  // ----- Scanning what was printed -----

  lemma {:induction false} AfterBoth(st: Scan, a: string, b: string)
    ensures After(st, a + b) == After(After(st, a), b)
    decreases |a|
  {
    if a == "" {
      assert a + b == b;
    } else {
      assert (a + b)[1..] == a[1..] + b;
      AfterBoth(Step(st, a[0]), a[1..], b);
    }
  }

  lemma {:induction false} SplitBoth(st: Scan, a: string, b: string, ops: seq<char>)
    ensures LastSplit(st, a + b, ops) ==
            var later := LastSplit(After(st, a), b, ops);
            if later.Some? then Some(|a| + later.value) else LastSplit(st, a, ops)
    decreases |a|
  {
    hide Step, Splits;
    if a == "" {
      assert a + b == b;
    } else {
      assert (a + b)[1..] == a[1..] + b;
      SplitBoth(Step(st, a[0]), a[1..], b, ops);
    }
  }

  function Last(s: string): char
    requires s != ""
  {
    s[|s| - 1]
  }

  // A text a scan passes at the depth it had, leaving `c` as its last character.
  ghost predicate Leads(p: string, c: char) {
    forall st: Scan :: st.quote.None? ==> After(st, p) == Scan(None, st.depth, c)
  }

  predicate Ops(ops: seq<char>) { ops == ADDITIVE || ops == MULTIPLICATIVE }

  // No operator of a text is at the top level inside brackets.
  ghost predicate Sheltered(p: string) {
    forall st: Scan, ops: seq<char> :: st.quote.None? && st.depth >= 1 && Ops(ops) ==> LastSplit(st, p, ops).None?
  }

  // Nor anywhere, unless an operand came right before it.
  ghost predicate Quiet(p: string, ops: seq<char>) {
    forall st: Scan :: st.quote.None? && st.depth == 0 && !OperandEnd(st.last) ==> LastSplit(st, p, ops).None?
  }

  // Nor right after `c`.
  ghost predicate QuietAfter(c: char, p: string, ops: seq<char>) {
    forall st: Scan :: st.quote.None? && st.depth == 0 && st.last == c ==> LastSplit(st, p, ops).None?
  }

  lemma BothLead(a: string, b: string, c: char, d: char)
    requires Leads(a, c) && Leads(b, d)
    ensures Leads(a + b, d)
  {
    forall st: Scan | st.quote.None? ensures After(st, a + b) == Scan(None, st.depth, d) {
      AfterBoth(st, a, b);
    }
  }

  lemma BothSheltered(a: string, b: string, c: char)
    requires Leads(a, c) && Sheltered(a) && Sheltered(b)
    ensures Sheltered(a + b)
  {
    forall st: Scan, ops: seq<char> | st.quote.None? && st.depth >= 1 && Ops(ops)
      ensures LastSplit(st, a + b, ops).None?
    {
      SplitBoth(st, a, b, ops);
    }
  }

  lemma BothQuiet(a: string, b: string, c: char, ops: seq<char>)
    requires Leads(a, c) && Quiet(a, ops) && QuietAfter(c, b, ops)
    ensures Quiet(a + b, ops)
  {
    forall st: Scan | st.quote.None? && st.depth == 0 && !OperandEnd(st.last) ensures LastSplit(st, a + b, ops).None? {
      SplitBoth(st, a, b, ops);
    }
  }

  lemma BothSplit(a: string, b: string, c: char, ops: seq<char>)
    requires Leads(a, c) && QuietAfter(c, b, ops)
    ensures LastSplit(START, a + b, ops) == LastSplit(START, a, ops)
  {
    SplitBoth(START, a, b, ops);
  }

  lemma SecondSplits(a: string, b: string, c: char, ops: seq<char>, at: nat)
    requires Leads(a, c) && LastSplit(Scan(None, 0, c), b, ops) == Some(at)
    ensures LastSplit(START, a + b, ops) == Some(|a| + at)
  {
    hide Step, Splits, LastSplit;
    SplitBoth(START, a, b, ops);
  }

  predicate Operator(op: char) { op in ADDITIVE || op in MULTIPLICATIVE }

  lemma OperatorScans(st: Scan, op: char, ops: seq<char>)
    requires st.quote.None? && Operator(op) && Ops(ops)
    ensures After(st, Spaced(op)) == Scan(None, st.depth, op) && !OperandEnd(op)
    ensures var here := st.depth == 0 && op in ops && (op == '-' ==> OperandEnd(st.last));
            LastSplit(st, Spaced(op), ops) == if here then Some(1) else None
  {
    var s := Spaced(op);
    assert s[1..] == [op, ' '] && s[1..][1..] == [' '] && s[1..][1..][1..] == [];
    assert Step(st, ' ') == st;
    assert Step(st, op) == Scan(None, st.depth, op);
    assert After(st, s) == After(st, [op, ' ']) == After(Scan(None, st.depth, op), [' ']);
    assert LastSplit(Scan(None, st.depth, op), [' '], ops) == None;
    assert LastSplit(st, [op, ' '], ops) == if Splits(st, op, ops) then Some(0) else None;
  }

  lemma SpacedLeads(op: char)
    requires Operator(op)
    ensures Leads(Spaced(op), op) && Sheltered(Spaced(op)) && !OperandEnd(op)
    ensures forall ops, c :: Ops(ops) && op !in ops ==> QuietAfter(c, Spaced(op), ops)
  {
    forall st: Scan | st.quote.None? ensures After(st, Spaced(op)) == Scan(None, st.depth, op) {
      OperatorScans(st, op, ADDITIVE);
    }
    forall st: Scan, ops | st.quote.None? && Ops(ops) && (st.depth >= 1 || (st.depth == 0 && op !in ops))
      ensures LastSplit(st, Spaced(op), ops).None?
    {
      OperatorScans(st, op, ops);
    }
    OperatorScans(START, op, ADDITIVE);
  }

  // What the parser needs to know of an operand's text.
  ghost predicate Reads(p: string, level: nat) {
    && p != "" && !Space(p[0]) && !Space(Last(p))
    && Leads(p, Last(p)) && Sheltered(p)
    && (level > 1 ==> Quiet(p, ADDITIVE))
    && (level > 2 ==> Quiet(p, MULTIPLICATIVE))
  }

  lemma OpenScans(st: Scan, p: string, ops: seq<char>)
    requires Reads(p, 1) && st.quote.None? && st.depth >= 0 && Ops(ops)
    ensures After(st, "(" + p) == Scan(None, st.depth + 1, Last(p))
    ensures LastSplit(st, "(" + p, ops).None?
  {
    hide Step, Splits;
    OpenScan(st, ops);
    AfterBoth(st, "(", p);
    SplitBoth(st, "(", p, ops);
  }

  lemma OpenScan(st: Scan, ops: seq<char>)
    requires st.quote.None? && Ops(ops)
    ensures After(st, "(") == Scan(None, st.depth + 1, '(') && LastSplit(st, "(", ops).None?
  {
    assert "("[1..] == "";
  }

  lemma OpenLeads(st: Scan, p: string)
    requires Reads(p, 1) && st.quote.None?
    ensures After(st, "(" + p) == Scan(None, st.depth + 1, Last(p))
  {
    AfterBoth(st, "(", p);
    assert After(st, "(") == Step(st, '(');
  }

  lemma CloseScans(st: Scan, ops: seq<char>)
    requires st.quote.None? && Ops(ops)
    ensures After(st, ")") == Scan(None, st.depth - 1, ')') && LastSplit(st, ")", ops) == None
  {
    assert After(st, ")") == Step(st, ')');
  }

  lemma ClosesScan(st: Scan, a: string, ops: seq<char>, last: char)
    requires After(st, a) == Scan(None, st.depth + 1, last) && Ops(ops)
    ensures After(st, a + ")") == Scan(None, st.depth, ')')
    ensures LastSplit(st, a + ")", ops) == LastSplit(st, a, ops)
  {
    hide Step, Splits, LastSplit, After;
    CloseScans(After(st, a), ops);
    AfterBoth(st, a, ")");
    SplitBoth(st, a, ")", ops);
  }

  lemma InParensReads(p: string)
    requires Reads(p, 1)
    ensures Reads(InParens(p), 3)
  {
    var a := "(" + p;
    assert InParens(p) == a + ")";
    forall st: Scan | st.quote.None? ensures After(st, a + ")") == Scan(None, st.depth, ')') {
      OpenLeads(st, p);
      ClosesScan(st, a, ADDITIVE, Last(p));
    }
    forall st: Scan, ops: seq<char> | st.quote.None? && st.depth >= 0 && Ops(ops)
      ensures LastSplit(st, a + ")", ops).None?
    {
      OpenScans(st, p, ops);
      ClosesScan(st, a, ops, Last(p));
    }
  }

  function Joined(l: string, op: char, r: string): string { l + Spaced(op) + r }

  lemma JoinedReads(l: string, op: char, r: string)
    requires Operator(op) && Reads(l, OpLevel(op)) && Reads(r, OpLevel(op) + 1)
    ensures Reads(Joined(l, op, r), OpLevel(op))
  {
    hide Step, Splits, LastSplit;
    var front := l + Spaced(op);
    SpacedLeads(op);
    BothLead(l, Spaced(op), Last(l), op);
    BothLead(front, r, op, Last(r));
    BothSheltered(l, Spaced(op), Last(l));
    BothSheltered(front, r, op);
    if op in MULTIPLICATIVE {
      BothQuiet(l, Spaced(op), Last(l), ADDITIVE);
      BothQuiet(front, r, op, ADDITIVE);
    }
  }

  // Joined operands split at the operator that joins them.
  lemma JoinedSplits(l: string, op: char, r: string)
    requires Operator(op) && Reads(l, OpLevel(op)) && Reads(r, OpLevel(op) + 1)
    requires op == '-' ==> OperandEnd(Last(l))
    ensures LastSplit(START, Joined(l, op, r), if op in ADDITIVE then ADDITIVE else MULTIPLICATIVE) == Some(|l| + 1)
    ensures op !in ADDITIVE ==> LastSplit(START, Joined(l, op, r), ADDITIVE) == None
  {
    hide Step, Splits, LastSplit;
    var front, ops := l + Spaced(op), if op in ADDITIVE then ADDITIVE else MULTIPLICATIVE;
    SpacedLeads(op);
    BothLead(l, Spaced(op), Last(l), op);
    OperatorScans(Scan(None, 0, Last(l)), op, ops);
    SecondSplits(l, Spaced(op), Last(l), ops, 1);
    BothSplit(front, r, op, ops);
    if op !in ADDITIVE {
      JoinedReads(l, op, r);
    }
  }

  // Characters that move nothing and split nothing.
  predicate Inert(c: char) { PathChar(c) || c == '?' }

  lemma {:induction false} InertScans(st: Scan, s: string, ops: seq<char>)
    requires st.quote.None? && Ops(ops) && forall c :: c in s ==> Inert(c)
    ensures After(st, s) == Scan(None, st.depth, if s == "" then st.last else Last(s))
    ensures LastSplit(st, s, ops).None?
    decreases |s|
  {
    if s != "" {
      assert Inert(s[0]);
      InertScans(Step(st, s[0]), s[1..], ops);
    }
  }

  lemma InertReads(p: string)
    requires p != "" && forall c :: c in p ==> Inert(c)
    ensures Reads(p, 3)
  {
    hide Step, Splits, After, LastSplit;
    assert Inert(p[0]) && Inert(Last(p));
    forall st: Scan, ops: seq<char> | st.quote.None? && Ops(ops)
      ensures After(st, p) == Scan(None, st.depth, Last(p)) && LastSplit(st, p, ops).None?
    {
      InertScans(st, p, ops);
    }
    forall st: Scan | st.quote.None? ensures After(st, p) == Scan(None, st.depth, Last(p)) {
      InertScans(st, p, ADDITIVE);
    }
  }

  // A sign before a number is no operator where no operand came before it.
  lemma SignedReads(p: string)
    requires p != "" && p[0] == '-' && p[1..] != "" && forall c :: c in p[1..] ==> Inert(c)
    ensures Reads(p, 3)
  {
    var rest := p[1..];
    assert p == "-" + rest;
    assert Inert(Last(rest)) && Last(p) == Last(rest);
    forall st: Scan, ops: seq<char> | st.quote.None? && Ops(ops)
      ensures After(st, p) == Scan(None, st.depth, Last(p))
      ensures st.depth >= 1 || (st.depth == 0 && !OperandEnd(st.last)) ==> LastSplit(st, p, ops).None?
    {
      InertScans(Step(st, '-'), rest, ops);
    }
    forall st: Scan | st.quote.None? ensures After(st, p) == Scan(None, st.depth, Last(p)) {
      InertScans(Step(st, '-'), rest, ADDITIVE);
    }
  }

  lemma {:induction false} InsideQuotes(st: Scan, s: string, ops: seq<char>)
    requires st.quote == Some('"') && '"' !in s
    ensures After(st, s).quote == Some('"') && After(st, s).depth == st.depth
    ensures LastSplit(st, s, ops).None?
    decreases |s|
  {
    if s != "" {
      assert s[0] in s && forall c :: c in s[1..] ==> c in s;
      InsideQuotes(Step(st, s[0]), s[1..], ops);
    }
  }

  lemma QuotedReads(s: string)
    requires '"' !in s
    ensures Reads("\"" + s + "\"", 3)
  {
    var p := "\"" + s + "\"";
    forall st: Scan, ops: seq<char> | st.quote.None? && Ops(ops)
      ensures After(st, p) == Scan(None, st.depth, '"') && LastSplit(st, p, ops).None?
    {
      QuotedScans(st, s, ops);
    }
    forall st: Scan | st.quote.None? ensures After(st, p) == Scan(None, st.depth, '"') {
      QuotedScans(st, s, ADDITIVE);
    }
  }

  lemma QuotedScans(st: Scan, s: string, ops: seq<char>)
    requires '"' !in s && st.quote.None? && Ops(ops)
    ensures After(st, "\"" + s + "\"") == Scan(None, st.depth, '"')
    ensures LastSplit(st, "\"" + s + "\"", ops).None?
  {
    var inner := Step(st, '"');
    AfterBoth(st, "\"", s);
    AfterBoth(st, "\"" + s, "\"");
    InsideQuotes(inner, s, ops);
    SplitBoth(st, "\"", s, ops);
    SplitBoth(st, "\"" + s, "\"", ops);
    assert After(st, "\"") == inner;
  }

  lemma SuffixedReads(p: string, suffix: string)
    requires Reads(p, 3) && suffix != "" && forall c :: c in suffix ==> Inert(c)
    ensures Reads(p + "." + suffix, 3)
  {
    var tail := "." + suffix;
    assert p + "." + suffix == p + tail && Inert(Last(tail));
    forall st: Scan, ops: seq<char> | st.quote.None? && Ops(ops)
      ensures After(st, p + tail) == Scan(None, st.depth, Last(tail))
      ensures LastSplit(st, p + tail, ops) == LastSplit(st, p, ops)
    {
      AfterBoth(st, p, tail);
      SplitBoth(st, p, tail, ops);
      InertScans(After(st, p), tail, ops);
    }
    forall st: Scan | st.quote.None? ensures After(st, p + tail) == Scan(None, st.depth, Last(tail)) {
      AfterBoth(st, p, tail);
      InertScans(After(st, p), tail, ADDITIVE);
    }
  }

  // ----- The printed text -----

  predicate PlainlySpelled(s: string) {
    && s != "" && '.' !in s && (forall c :: c in s ==> Inert(c))
    && (s[|s| - 1] == '?' || 'a' <= s[|s| - 1] <= 'z') && s[|s| - 1] != 'h'
  }

  lemma SignSpelling(s: string)
    requires s in SIGN_TESTS
    ensures PlainlySpelled(s)
  {
  }

  lemma ReceiverSpelling(s: string)
    requires s in RECEIVER_SUFFIXES
    ensures PlainlySpelled(s)
  {
  }

  lemma SuffixSpelling(s: string)
    requires Suffixes(s)
    ensures s != "" && '.' !in s && forall c :: c in s ==> Inert(c)
    ensures Last(s) == '?' || 'a' <= Last(s) <= 'z'
    ensures Last(s) != 'h'
  {
    if s in SIGN_TESTS {
      SignSpelling(s);
    } else {
      ReceiverSpelling(s);
    }
  }

  lemma KeywordSpelling(word: string)
    requires word in KEYWORDS
    ensures word != "" && forall c :: c in word ==> 'a' <= c <= 'z'
    ensures Last(word) != 'h'
  {
  }

  lemma DecimalSpelling(e: string)
    requires IsDecimal(e)
    ensures |Unsigned(e)| >= 2 && '.' in Unsigned(e) && Digit(Last(e))
    ensures Digit(Unsigned(e)[0]) || Unsigned(e)[0] == '.'
    ensures forall c :: c in Unsigned(e) ==> Digit(c) || c == '.'
  {
    var u := Unsigned(e);
    var k :| 0 <= k < |u| - 1 && u[k] == '.' && Digits(u[..k]) && Digits(u[k + 1..]);
    assert u == u[..k] + [u[k]] + u[k + 1..];
    assert Last(u) in u[k + 1..];
    assert k > 0 ==> u[0] in u[..k];
  }

  lemma InertOrSigned(p: string)
    requires Unsigned(p) != "" && forall c :: c in Unsigned(p) ==> Inert(c)
    ensures Reads(p, 3)
  {
    if p[0] == '-' {
      SignedReads(p);
    } else {
      InertReads(p);
    }
  }

  lemma NumeralSpelling(n: int)
    ensures var p := Signed(n); IsWhole(p) && Unsigned(p) == Numeral(if n < 0 then -n else n) && Digit(Last(p))
  {
    var digits := Numeral(if n < 0 then -n else n);
    assert digits[0] in digits && Last(digits) in digits;
    if n < 0 {
      assert Signed(n)[1..] == digits;
    }
  }

  lemma LooserReads(p: string, high: nat, low: nat)
    requires Reads(p, high) && low <= high
    ensures Reads(p, low)
  {
  }

  lemma OperandReads(t: Tree, level: nat, careful: bool)
    requires Printable(t) && level <= 3 && Reads(Print(t, careful), Level(t))
    ensures Reads(Operand(t, level, careful), level)
  {
    if Level(t) < level {
      LooserReads(Print(t, careful), Level(t), 1);
      InParensReads(Print(t, careful));
      LooserReads(InParens(Print(t, careful)), 3, level);
    } else {
      LooserReads(Print(t, careful), Level(t), level);
    }
  }

  lemma LeftReads(t: Tree, careful: bool)
    requires Printable(t) && t.Infix? && Reads(Print(t.left, careful), Level(t.left))
    ensures Reads(LeftText(t, careful), Level(t))
  {
    OperandReads(t.left, Level(t), careful);
    LooserReads(Print(t.left, careful), Level(t.left), 1);
    InParensReads(Print(t.left, careful));
    LooserReads(InParens(Print(t.left, careful)), 3, Level(t));
  }

  lemma {:induction false} PrintReads(t: Tree, careful: bool)
    requires Printable(t)
    ensures Reads(Print(t, careful), Level(t))
  {
    match t {
      case Whole(n) =>
        NumeralSpelling(n);
        InertOrSigned(Print(t, careful));
      case Decimal(spelled) =>
        DecimalSpelling(spelled);
        InertOrSigned(spelled);
      case Text(s) => QuotedReads(s);
      case Word(word) =>
        KeywordSpelling(word);
        InertReads(word);
      case Path(path) => InertReads(path);
      case Call(receiver, suffix) =>
        PrintReads(receiver, careful);
        OperandReads(receiver, 3, careful);
        SuffixSpelling(suffix);
        SuffixedReads(Operand(receiver, 3, careful), suffix);
      case Infix(op, left, right) =>
        PrintReads(left, careful);
        PrintReads(right, careful);
        LeftReads(t, careful);
        OperandReads(right, Level(t) + 1, careful);
        JoinedReads(LeftText(t, careful), op, Operand(right, Level(t) + 1, careful));
    }
  }

  // ----- Its first and last characters -----

  // What the text begins and ends with.
  lemma {:induction false} PrintEnds(t: Tree, careful: bool)
    requires Printable(t)
    ensures Print(t, careful)[0] != '\'' && Last(Print(t, careful)) != '\''
    ensures OperandEnd(Last(Print(t, careful))) || Last(Print(t, careful)) == '?'
  {
    match t {
      case Call(receiver, suffix) =>
        PrintEnds(receiver, careful);
        CallEnding(t, careful);
      case Infix(op, left, right) =>
        PrintEnds(left, careful);
        PrintEnds(right, careful);
        SidesEnd(t, careful);
      case _ => LeafEnds(t, careful);
    }
  }

  lemma LeafEnds(t: Tree, careful: bool)
    requires Printable(t) && !t.Call? && !t.Infix?
    ensures Print(t, careful)[0] != '\'' && OperandEnd(Last(Print(t, careful))) && Last(Print(t, careful)) != '\''
  {
    match t {
      case Whole(n) =>
        NumeralSpelling(n);
        assert Digit(Unsigned(Signed(n))[0]);
      case Decimal(spelled) =>
        DecimalSpelling(spelled);
        assert Inert(Unsigned(spelled)[0]);
      case Text(s) =>
      case Word(word) => KeywordSpelling(word);
      case Path(path) => assert PathChar(path[0]) && PathChar(Last(path));
    }
  }

  lemma CallEnding(t: Tree, careful: bool)
    requires Printable(t) && t.Call? && Print(t.receiver, careful)[0] != '\''
    ensures Print(t, careful)[0] != '\'' && Last(Print(t, careful)) != '\''
    ensures OperandEnd(Last(Print(t, careful))) || Last(Print(t, careful)) == '?'
  {
    hide Print, Operand;
    CallText(t, careful);
    OperandText(t.receiver, 3, careful);
    SuffixSpelling(t.suffix);
  }

  lemma SidesEnd(t: Tree, careful: bool)
    requires Printable(t) && t.Infix?
    requires Print(t.left, careful)[0] != '\'' && Last(Print(t.right, careful)) != '\''
    requires OperandEnd(Last(Print(t.right, careful))) || Last(Print(t.right, careful)) == '?'
    ensures Print(t, careful)[0] != '\'' && Last(Print(t, careful)) != '\''
    ensures OperandEnd(Last(Print(t, careful))) || Last(Print(t, careful)) == '?'
  {
    InfixEnds(t, careful);
    OperandText(t.right, Level(t) + 1, careful);
    LeftIs(t, careful);
    hide Print, Operand, LeftText;
  }

  lemma {:induction false} NoLength(t: Tree, careful: bool)
    requires Printable(t)
    ensures !EndsWith(Print(t, careful), ".length")
  {
    match t {
      case Whole(n) =>
        NumeralSpelling(n);
        NotInH(Print(t, careful));
      case Decimal(spelled) =>
        DecimalSpelling(spelled);
        NotInH(spelled);
      case Text(s) => NotInH(Print(t, careful));
      case Word(word) =>
        KeywordSpelling(word);
        NotInH(word);
      case Path(path) =>
      case Call(receiver, suffix) =>
        SuffixSpelling(suffix);
        NotInH(Print(t, careful));
      case Infix(op, left, right) =>
        NoLength(right, careful);
        InfixLength(t, careful);
    }
  }

  lemma NotInH(p: string)
    requires p != "" && Last(p) != 'h'
    ensures !EndsWith(p, ".length")
  {
    assert |p| >= 7 ==> p[|p| - 7..][6] == Last(p);
    assert ".length"[6] == 'h';
  }

  lemma InfixEnds(t: Tree, careful: bool)
    requires Printable(t) && t.Infix?
    ensures Print(t, careful)[0] == LeftText(t, careful)[0]
            && Last(Print(t, careful)) == Last(Operand(t.right, Level(t) + 1, careful))
  {
  }

  lemma InfixText(t: Tree, careful: bool)
    requires Printable(t) && t.Infix?
    ensures Print(t, careful) == LeftText(t, careful) + [' ', t.op] + [' '] + Operand(t.right, Level(t) + 1, careful)
  {
  }

  lemma OperandText(t: Tree, level: nat, careful: bool)
    requires Printable(t)
    ensures Operand(t, level, careful) == Print(t, careful) || Operand(t, level, careful) == InParens(Print(t, careful))
  {
  }

  lemma InfixLength(t: Tree, careful: bool)
    requires Printable(t) && t.Infix?
    requires !EndsWith(Print(t.right, careful), ".length")
    ensures !EndsWith(Print(t, careful), ".length")
  {
    hide Print, Operand, LeftText, EndsWith;
    var front, r := LeftText(t, careful) + [' ', t.op], Operand(t.right, Level(t) + 1, careful);
    InfixText(t, careful);
    NotInH(InParens(Print(t.right, careful)));
    OperandText(t.right, Level(t) + 1, careful);
    if EndsWith(front + [' '] + r, ".length") {
      SpaceBefore(front, r, ".length");
    }
  }

  // A tail longer than what follows a character holds that character.
  lemma TailReaches(a: string, c: char, r: string, tail: string)
    requires |r| < |tail| && EndsWith(a + [c] + r, tail)
    ensures tail[|tail| - |r| - 1] == c && tail[|tail| - |r|..] == r
  {
    var s := a + [c] + r;
    assert tail == s[|s| - |tail|..];
    assert s[|a| + 1..] == r;
  }

  lemma TailWithin(a: string, c: char, r: string, tail: string)
    requires |tail| <= |r| && EndsWith(a + [c] + r, tail)
    ensures EndsWith(r, tail) && forall x :: x in tail ==> x in r
  {
    var s := a + [c] + r;
    assert s[|s| - |tail|..] == r[|r| - |tail|..];
  }

  // A tail without spaces lies past the last space.
  lemma SpaceBefore(a: string, r: string, tail: string)
    requires EndsWith(a + [' '] + r, tail) && ' ' !in tail
    ensures EndsWith(r, tail)
  {
    if |r| < |tail| {
      TailReaches(a, ' ', r, tail);
      assert false;
    } else {
      TailWithin(a, ' ', r, tail);
    }
  }

  // ----- Reading it back -----

  // The closing bracket of an open group lies past the text.
  ghost predicate Passes(p: string) {
    forall rest: string, d: int :: d >= 1 ==> Closing(p + rest, None, d) == Shifted(|p|, Closing(rest, None, d))
  }

  function Shifted(n: nat, at: Option<nat>): Option<nat> {
    if at.Some? then Some(n + at.value) else None
  }

  lemma {:induction false} InertCloses(p: string, rest: string, quote: Option<char>, d: int)
    requires (quote.None? && forall c :: c in p ==> Inert(c)) || (quote == Some('"') && '"' !in p)
    ensures Closing(p + rest, quote, d) == Shifted(|p|, Closing(rest, quote, d))
  {
    if p == "" {
      assert p + rest == rest;
    } else {
      assert (p + rest)[1..] == p[1..] + rest;
      assert p[0] in p && forall c :: c in p[1..] ==> c in p;
      InertCloses(p[1..], rest, quote, d);
    }
  }

  lemma CloseOne(c: char, rest: string, quote: Option<char>, d: int)
    requires d >= 1 && c != ')'
    ensures Closing([c] + rest, quote, d)
         == Shifted(1, Closing(rest, NextQuote(quote, c), if quote.None? && c == '(' then d + 1 else d))
  {
    assert ([c] + rest)[1..] == rest;
  }

  lemma InertPasses(p: string)
    requires forall c :: c in p ==> Inert(c)
    ensures Passes(p)
  {
    forall rest: string, d: int | d >= 1 ensures Closing(p + rest, None, d) == Shifted(|p|, Closing(rest, None, d)) {
      InertCloses(p, rest, None, d);
    }
  }

  lemma OnePasses(c: char)
    requires c != ')' && c != '(' && !Quote(c)
    ensures Passes([c])
  {
    forall rest: string, d: int | d >= 1 ensures Closing([c] + rest, None, d) == Shifted(1, Closing(rest, None, d)) {
      CloseOne(c, rest, None, d);
    }
  }

  lemma BothPass(a: string, b: string)
    requires Passes(a) && Passes(b)
    ensures Passes(a + b)
  {
    forall rest: string, d: int | d >= 1
      ensures Closing(a + b + rest, None, d) == Shifted(|a + b|, Closing(rest, None, d))
    {
      assert a + b + rest == a + (b + rest);
    }
  }

  lemma SignedPasses(p: string)
    requires Unsigned(p) != "" && forall c :: c in Unsigned(p) ==> Inert(c)
    ensures Passes(p)
  {
    InertPasses(Unsigned(p));
    if p[0] == '-' {
      OnePasses('-');
      BothPass("-", p[1..]);
      assert p == "-" + p[1..];
    }
  }

  lemma QuotedPasses(s: string)
    requires '"' !in s
    ensures Passes("\"" + s + "\"")
  {
    hide Closing;
    var p := "\"" + s + "\"";
    forall rest: string, d: int | d >= 1 ensures Closing(p + rest, None, d) == Shifted(|p|, Closing(rest, None, d)) {
      assert p + rest == ['"'] + (s + (['"'] + rest));
      CloseOne('"', s + (['"'] + rest), None, d);
      InertCloses(s, ['"'] + rest, Some('"'), d);
      CloseOne('"', rest, Some('"'), d);
    }
  }

  lemma CloseInner(rest: string, d: int)
    requires d >= 1
    ensures Closing([')'] + rest, None, d + 1) == Shifted(1, Closing(rest, None, d))
  {
    assert ([')'] + rest)[1..] == rest;
  }

  lemma InParensPasses(p: string)
    requires Passes(p)
    ensures Passes(InParens(p))
  {
    hide Closing;
    forall rest: string, d: int | d >= 1
      ensures Closing(InParens(p) + rest, None, d) == Shifted(|p| + 2, Closing(rest, None, d))
    {
      assert InParens(p) + rest == ['('] + (p + ([')'] + rest));
      CloseOne('(', p + ([')'] + rest), None, d);
      CloseInner(rest, d);
      assert Closing(p + ([')'] + rest), None, d + 1) == Shifted(|p|, Closing([')'] + rest, None, d + 1));
    }
  }

  lemma {:induction false} PrintPasses(t: Tree, careful: bool)
    requires Printable(t)
    ensures Passes(Print(t, careful))
  {
    match t {
      case Whole(n) =>
        NumeralSpelling(n);
        SignedPasses(Print(t, careful));
      case Decimal(spelled) =>
        DecimalSpelling(spelled);
        SignedPasses(spelled);
      case Text(s) => QuotedPasses(s);
      case Word(word) =>
        KeywordSpelling(word);
        InertPasses(word);
      case Path(path) => InertPasses(path);
      case Call(receiver, suffix) =>
        PrintPasses(receiver, careful);
        CallPasses(t, careful);
      case Infix(op, left, right) =>
        PrintPasses(left, careful);
        PrintPasses(right, careful);
        InfixPasses(t, careful);
    }
  }

  lemma CallPasses(t: Tree, careful: bool)
    requires Printable(t) && t.Call? && Passes(Print(t.receiver, careful))
    ensures Passes(Print(t, careful))
  {
    hide Print, Operand, Passes;
    var p := Operand(t.receiver, 3, careful);
    CallText(t, careful);
    OperandText(t.receiver, 3, careful);
    InParensPasses(Print(t.receiver, careful));
    SuffixSpelling(t.suffix);
    InertPasses("." + t.suffix);
    BothPass(p, "." + t.suffix);
    assert p + "." + t.suffix == p + ("." + t.suffix);
  }

  lemma InfixPasses(t: Tree, careful: bool)
    requires Printable(t) && t.Infix? && Passes(Print(t.left, careful)) && Passes(Print(t.right, careful))
    ensures Passes(Print(t, careful))
  {
    hide Print, Operand, LeftText, Passes;
    var l, r := LeftText(t, careful), Operand(t.right, Level(t) + 1, careful);
    InfixText(t, careful);
    LeftIs(t, careful);
    OperandText(t.right, Level(t) + 1, careful);
    InParensPasses(Print(t.left, careful));
    InParensPasses(Print(t.right, careful));
    SpacedPasses(t.op);
    BothPass(l, Spaced(t.op));
    BothPass(l + Spaced(t.op), r);
    assert l + [' ', t.op] + [' '] + r == l + Spaced(t.op) + r;
  }

  lemma SpacedPasses(op: char)
    requires Operator(op)
    ensures Passes(Spaced(op))
  {
    OnePasses(' ');
    OnePasses(op);
    BothPass(" ", [op]);
    BothPass(" " + [op], " ");
    assert Spaced(op) == " " + [op] + " ";
  }

  // ----- No other step takes it -----

  lemma {:induction false} NoSuffixIn(e: string, suffixes: seq<string>, lax: bool)
    requires forall s :: s in suffixes ==> !EndsWith(e, "." + s)
    ensures SuffixOf(e, suffixes, lax) == None
  {
    if suffixes != [] {
      assert suffixes[0] in suffixes && forall s :: s in suffixes[1..] ==> s in suffixes;
      NoSuffixIn(e, suffixes[1..], lax);
    }
  }

  // Two dot-free suffixes of one text are the same.
  lemma OneSuffix(p: string, s: string, other: string)
    requires '.' !in s && '.' !in other && EndsWith(p + "." + s, "." + other)
    ensures other == s
  {
    var tail := "." + other;
    assert p + "." + s == p + ['.'] + s && '.' in tail;
    if |s| < |tail| {
      TailReaches(p, '.', s, tail);
    } else {
      TailWithin(p, '.', s, tail);
    }
  }

  lemma {:induction false} FindsSuffix(p: string, s: string, suffixes: seq<string>, lax: bool)
    requires '.' !in s && forall other :: other in suffixes ==> '.' !in other
    requires Ends(p + "." + s, s, lax)
    ensures SuffixOf(p + "." + s, suffixes, lax) == if s in suffixes then Some(s) else None
  {
    if suffixes != [] {
      FindsSuffix(p, s, suffixes[1..], lax);
      if Ends(p + "." + s, suffixes[0], lax) {
        OneSuffix(p, s, suffixes[0]);
      }
    }
  }

  // ----- Round trip -----

  // The steps up to the additive one let the text by.
  ghost predicate Unread(e: string) {
    e != "" && Strip(e) == e && !Ends(e, "length", false) && Literal(e) == None
  }

  lemma {:induction false} NatOfNumeral(n: nat)
    ensures NatOf(Numeral(n)) == n
  {
    if n >= 10 {
      NatOfNumeral(n / 10);
      assert Numeral(n)[..|Numeral(n)| - 1] == Numeral(n / 10);
    } else {
      assert Numeral(n)[..0] == "";
    }
  }

  lemma WholeLiteral(n: int)
    ensures Literal(Signed(n)) == Some(Whole(n))
  {
    var p := Signed(n);
    NumeralSpelling(n);
    NatOfNumeral(if n < 0 then -n else n);
    assert Digit(Unsigned(p)[0]);
  }

  lemma DecimalLiteral(e: string)
    requires IsDecimal(e)
    ensures Literal(e) == Some(Decimal(e))
  {
    DecimalSpelling(e);
    assert Inert(Unsigned(e)[0]);
  }

  lemma TextLiteral(s: string)
    ensures Literal("\"" + s + "\"") == Some(Text(s))
  {
    var e := "\"" + s + "\"";
    assert e[1..|e| - 1] == s;
  }

  lemma WordLiteral(word: string)
    requires word in KEYWORDS
    ensures Literal(word) == Some(Word(word))
  {
    KeywordSpelling(word);
    assert !Digit(Last(word)) && Last(word) == Last(Unsigned(word)) && Last(word) in Unsigned(word);
    NotDecimal(word);
  }

  lemma NotDecimal(e: string)
    requires e != "" && !Digit(Last(e))
    ensures !IsDecimal(e)
  {
    if IsDecimal(e) {
      DecimalSpelling(e);
    }
  }

  // A text in whose middle no number goes on is no literal, unless it is quoted or a keyword.
  lemma NoNumber(e: string, k: nat)
    requires 0 < k < |e| && !Digit(e[k]) && e[k] != '.'
    ensures !IsWhole(e) && !IsDecimal(e)
  {
    var u := Unsigned(e);
    var j := if e[0] == '-' then k - 1 else k;
    assert u[j] == e[k] && u[j] in u;
    if IsDecimal(e) {
      DecimalSpelling(e);
    }
  }

  lemma PathUnread(path: string)
    requires Spellable(path)
    ensures Unread(path)
  {
    hide IsDecimal, EndsWith, Strip;
    assert PathChar(path[0]) && PathChar(Last(path));
    assert Unsigned(path) == path && path[0] in path;
    if IsDecimal(path) {
      DecimalSpelling(path);
    }
    UnreadText(path);
  }

  // What keeps a text from the steps before the additive one.
  lemma UnreadText(e: string)
    requires e != "" && !Space(e[0]) && !Space(Last(e)) && !EndsWith(e, ".length")
    requires !Quoted(e) && !IsWhole(e) && !IsDecimal(e) && e !in KEYWORDS
    ensures Unread(e)
  {
    hide Quoted, IsWhole, IsDecimal, EndsWith;
    assert "." + "length" == ".length";
  }

  lemma CallUnread(t: Tree, careful: bool)
    requires Printable(t) && t.Call?
    ensures Unread(Print(t, careful))
  {
    hide Print, Operand, LeftText, Leads, Sheltered, Quiet, IsDecimal, EndsWith, Unread;
    var e := Print(t, careful);
    CallText(t, careful);
    PrintReads(t, careful);
    NoLength(t, careful);
    SuffixSpelling(t.suffix);
    NotDecimal(e);
    assert Last(e) in Unsigned(e);
    assert e[|e| - |t.suffix| - 1] == '.';
    if e in KEYWORDS {
      KeywordSpelling(e);
    }
    UnreadText(e);
  }

  // A node whose text is misread, printed with no more parentheses than precedence asks for.
  predicate Slips(t: Tree, careful: bool)
    requires Printable(t)
  {
    t.Infix? && !careful && Misread(t.op, Operand(t.left, Level(t), careful), Operand(t.right, Level(t) + 1, careful))
  }

  lemma InfixUnread(t: Tree, careful: bool)
    requires Printable(t) && t.Infix? && !Slips(t, careful)
    ensures Unread(Print(t, careful))
  {
    hide Print, LeftText, Leads, Sheltered, Quiet, Quoted, IsWhole, IsDecimal, EndsWith, Unread;
    var e, l := Print(t, careful), LeftText(t, careful);
    PrintReads(t, careful);
    NoLength(t, careful);
    InfixSpace(t, careful);
    NoNumber(e, |l|);
    assert e[|l|] in e;
    if e in KEYWORDS {
      KeywordSpelling(e);
    }
    InfixUnquoted(t, careful);
    UnreadText(e);
  }

  lemma InfixSpace(t: Tree, careful: bool)
    requires Printable(t) && t.Infix?
    ensures 0 < |LeftText(t, careful)| < |Print(t, careful)| && Print(t, careful)[|LeftText(t, careful)|] == ' '
  {
  }

  lemma InfixUnquoted(t: Tree, careful: bool)
    requires Printable(t) && t.Infix? && !Slips(t, careful)
    ensures !Quoted(Print(t, careful))
  {
    InfixEnds(t, careful);
    PrintEnds(t.left, careful);
    PrintEnds(t.right, careful);
  }

  lemma GroupUnread(p: string)
    requires p != ""
    ensures Unread(InParens(p))
  {
    var e := InParens(p);
    NotInH(e);
    assert e[0] in Unsigned(e);
    if IsDecimal(e) {
      DecimalSpelling(e);
    }
    if e in KEYWORDS {
      KeywordSpelling(e);
    }
  }

  lemma GroupGrouped(p: string)
    requires Passes(p)
    ensures Grouped(InParens(p)) && InParens(p)[1..|InParens(p)| - 1] == p
  {
    var e := InParens(p);
    assert e[1..|e| - 1] == p;
    assert e[1..] == p + ")";
    assert Closing(")", None, 1) == Some(0);
  }

  // Parentheses around a text read as the text.
  lemma ParseGroup(p: string)
    requires Reads(p, 1) && Passes(p)
    ensures Parse(InParens(p)) == Parse(p)
  {
    hide Step, Splits, LastSplit, After, Closing, Passes, Literal, Grouped;
    GroupUnread(p);
    InParensReads(p);
    GroupGrouped(p);
    Unsplit(InParens(p));
  }

  lemma Unsplit(e: string)
    requires Reads(e, 3)
    ensures LastSplit(START, e, ADDITIVE) == None && LastSplit(START, e, MULTIPLICATIVE) == None
  {
    hide Step, Splits, LastSplit, After;
  }

  lemma ParseOperand(t: Tree, text: string, careful: bool)
    requires Printable(t) && (text == Print(t, careful) || text == InParens(Print(t, careful)))
    ensures Parse(text) == Parse(Print(t, careful))
  {
    PrintReads(t, careful);
    PrintPasses(t, careful);
    LooserReads(Print(t, careful), Level(t), 1);
    ParseGroup(Print(t, careful));
  }

  lemma NotGrouped(e: string)
    requires e != "" && Last(e) != ')'
    ensures !Grouped(e)
  {
    ClosesAtBracket(e[1..], None, 1);
  }

  lemma {:induction false} ClosesAtBracket(s: string, quote: Option<char>, d: int)
    ensures var at := Closing(s, quote, d); at.Some? ==> s[at.value] == ')'
  {
    if s != "" {
      var now := d + if quote.None? && s[0] == '(' then 1 else if quote.None? && s[0] == ')' then -1 else 0;
      ClosesAtBracket(s[1..], NextQuote(quote, s[0]), now);
    }
  }

  lemma PathEnds(path: string)
    requires Spellable(path)
    ensures path != "" && PathChar(path[0]) && PathChar(Last(path))
  {
  }

  lemma CallText(t: Tree, careful: bool)
    requires Printable(t) && t.Call?
    ensures Print(t, careful) == Operand(t.receiver, 3, careful) + "." + t.suffix
  {
  }

  lemma ParsePath(path: string)
    requires Spellable(path)
    ensures Parse(path) == Path(path)
  {
    hide Step, Splits, LastSplit, Closing, Literal, Grouped, EndsWith, SuffixOf, Reads;
    PathUnread(path);
    PathEnds(path);
    PrintReads(Path(path), true);
    NotGrouped(path);
    NoSuffixIn(path, SIGN_TESTS, true);
    NoSuffixIn(path, RECEIVER_SUFFIXES, false);
    Unsplit(path);
  }

  lemma ParseCall(t: Tree, careful: bool)
    requires Printable(t) && t.Call?
    ensures Parse(Print(t, careful)) == Call(Parse(Operand(t.receiver, 3, careful)), t.suffix)
  {
    hide Step, Splits, LastSplit, After, Closing, Literal, Grouped, EndsWith;
    var p, e := Operand(t.receiver, 3, careful), Print(t, careful);
    CallUnread(t, careful);
    PrintReads(t, careful);
    Unsplit(e);
    SuffixSpelling(t.suffix);
    NotGrouped(e);
    CallEnds(t, careful);
  }

  lemma CallEnds(t: Tree, careful: bool)
    requires Printable(t) && t.Call?
    ensures var e, sign := Print(t, careful), t.suffix in SIGN_TESTS;
            && SuffixOf(e, SIGN_TESTS, true) == (if sign then Some(t.suffix) else None)
            && (!sign ==> SuffixOf(e, RECEIVER_SUFFIXES, false) == Some(t.suffix))
            && EndsWith(e, "." + t.suffix) && Before(e, t.suffix) == Operand(t.receiver, 3, careful)
  {
    hide Print, Operand, LeftText, SuffixOf;
    var p, e := Operand(t.receiver, 3, careful), Print(t, careful);
    CallText(t, careful);
    SuffixSpelling(t.suffix);
    DotFree();
    assert e[|p|..] == "." + t.suffix;
    FindsSuffix(p, t.suffix, SIGN_TESTS, true);
    if t.suffix !in SIGN_TESTS {
      OperandLine(t, careful);
      FindsSuffix(p, t.suffix, RECEIVER_SUFFIXES, false);
    }
  }

  lemma OperandLine(t: Tree, careful: bool)
    requires Printable(t) && t.Call? && t.suffix !in SIGN_TESTS
    ensures '\n' !in Operand(t.receiver, 3, careful)
  {
    PrintLine(t.receiver, careful);
  }

  lemma DotFree()
    ensures forall s :: s in SIGN_TESTS + RECEIVER_SUFFIXES ==> '.' !in s
  {
    forall s | s in SIGN_TESTS + RECEIVER_SUFFIXES ensures '.' !in s { SuffixSpelling(s); }
  }

  lemma {:induction false} PrintLine(t: Tree, careful: bool)
    requires Printable(t) && OneLine(t)
    ensures '\n' !in Print(t, careful)
  {
    if t.Call? {
      PrintLine(t.receiver, careful);
      CallLine(t, careful);
    } else if t.Infix? {
      PrintLine(t.left, careful);
      PrintLine(t.right, careful);
      InfixLine(t, careful);
    } else {
      LeafLine(t, careful);
    }
  }

  lemma LeafLine(t: Tree, careful: bool)
    requires Printable(t) && OneLine(t) && !t.Call? && !t.Infix?
    ensures '\n' !in Print(t, careful)
  {
    hide IsDecimal, IsWhole;
    match t {
      case Whole(n) => NumeralLine(n);
      case Decimal(spelled) =>
        DecimalSpelling(spelled);
        assert spelled == Unsigned(spelled) || spelled == ['-'] + Unsigned(spelled);
      case Word(word) => KeywordSpelling(word);
      case _ =>
    }
  }

  lemma NumeralLine(n: int)
    ensures '\n' !in Signed(n)
  {
    hide Numeral;
    var digits := Numeral(if n < 0 then -n else n);
    assert '\n' !in digits;
  }

  lemma CallLine(t: Tree, careful: bool)
    requires Printable(t) && t.Call? && '\n' !in Print(t.receiver, careful)
    ensures '\n' !in Print(t, careful)
  {
    hide Print, Operand, Suffixes, InParens;
    CallText(t, careful);
    OperandText(t.receiver, 3, careful);
    SuffixLine(t.suffix);
    ParensLine(Print(t.receiver, careful));
    NotInBoth('\n', Operand(t.receiver, 3, careful), ".");
    NotInBoth('\n', Operand(t.receiver, 3, careful) + ".", t.suffix);
  }

  lemma NotInBoth(c: char, a: string, b: string)
    requires c !in a && c !in b
    ensures c !in a + b
  {
  }

  lemma ParensLine(p: string)
    requires '\n' !in p
    ensures '\n' !in InParens(p)
  {
  }

  lemma SuffixLine(s: string)
    requires Suffixes(s)
    ensures '\n' !in s
  {
    SuffixSpelling(s);
  }

  lemma InfixLine(t: Tree, careful: bool)
    requires Printable(t) && t.Infix? && '\n' !in Print(t.left, careful) && '\n' !in Print(t.right, careful)
    ensures '\n' !in Print(t, careful)
  {
    hide Print, Operand, LeftText;
    InfixText(t, careful);
    OperandText(t.right, Level(t) + 1, careful);
    LeftIs(t, careful);
  }

  lemma LeftIs(t: Tree, careful: bool)
    requires Printable(t) && t.Infix?
    ensures LeftText(t, careful) == Print(t.left, careful) || LeftText(t, careful) == InParens(Print(t.left, careful))
  {
  }

  // A minus joins only after an operand's last character.
  lemma LeftEnds(t: Tree, careful: bool)
    requires Printable(t) && t.Infix? && !Slips(t, careful)
    ensures t.op == '-' ==> OperandEnd(Last(LeftText(t, careful)))
  {
    PrintEnds(t.left, careful);
  }

  lemma OperandsRead(t: Tree, careful: bool)
    requires Printable(t) && t.Infix?
    ensures Reads(LeftText(t, careful), Level(t)) && Reads(Operand(t.right, Level(t) + 1, careful), Level(t) + 1)
  {
    PrintReads(t.left, careful);
    PrintReads(t.right, careful);
    LeftReads(t, careful);
    OperandReads(t.right, Level(t) + 1, careful);
  }

  lemma ParseInfix(t: Tree, careful: bool)
    requires Printable(t) && t.Infix? && !Slips(t, careful)
    ensures Parse(Print(t, careful))
            == Infix(t.op, Parse(LeftText(t, careful)), Parse(Operand(t.right, Level(t) + 1, careful)))
  {
    hide Step, Splits, LastSplit, After, Closing, Literal, Grouped, EndsWith, Reads, LeftText, Operand, SuffixOf, Strip;
    var l, r, e := LeftText(t, careful), Operand(t.right, Level(t) + 1, careful), Print(t, careful);
    InfixUnread(t, careful);
    OperandsRead(t, careful);
    LeftEnds(t, careful);
    JoinedSplits(l, t.op, r);
    LooserReads(l, Level(t), 1);
    LooserReads(r, Level(t) + 1, 1);
    InfixSides(l, t.op, r);
    SplitsAt(e, l, t.op, r);
  }

  // A text neither literal nor a length call parses as the split it has.
  lemma SplitsAt(e: string, l: string, op: char, r: string)
    requires Unread(e) && Operator(op) && |l| + 2 <= |e|
    requires e[|l| + 1] == op && Strip(e[..|l| + 1]) == l && Strip(e[|l| + 2..]) == r
    requires LastSplit(START, e, if op in ADDITIVE then ADDITIVE else MULTIPLICATIVE) == Some(|l| + 1)
    requires op !in ADDITIVE ==> LastSplit(START, e, ADDITIVE) == None
    ensures Parse(e) == Infix(op, Parse(l), Parse(r))
  {
    hide Step, Splits, LastSplit, Literal, Grouped, EndsWith, SuffixOf, Strip;
  }

  lemma InfixSides(l: string, op: char, r: string)
    requires Reads(l, 1) && Reads(r, 1)
    ensures var e := Joined(l, op, r);
            e[|l| + 1] == op && Strip(e[..|l| + 1]) == l && Strip(e[|l| + 2..]) == r
  {
    var e := Joined(l, op, r);
    assert e[..|l| + 1] == l + [' '] && e[|l| + 2..] == [' '] + r;
    assert (l + [' '])[..|l|] == l && ([' '] + r)[1..] == r;
    assert Strip(l + [' ']) == Strip(l) && Strip([' '] + r) == Strip(r);
  }

  lemma ParseLiteral(t: Tree, careful: bool)
    requires Printable(t)
    ensures Literal(Print(t, careful)).Some? ==> Parse(Print(t, careful)) == Literal(Print(t, careful)).value
  {
    hide Step, Splits, LastSplit, Closing, Literal, Grouped, EndsWith, SuffixOf;
    assert "." + "length" == ".length";
    PrintReads(t, careful);
    NoLength(t, careful);
  }

  // Reading a printed tree gives the tree back: `*` and `/` bind tighter than `+` and `-`, chains
  // group to the left, and a minus is a sign or a subtraction by where it stands.
  lemma {:induction false} RoundTrip(t: Tree)
    requires Printable(t)
    ensures Parse(Print(t, true)) == t
  {
    hide Step, Splits, LastSplit, Closing, Literal, Grouped, EndsWith, SuffixOf, Strip, Parse;
    if Level(t) == 3 && !t.Path? && !t.Call? {
      ParseLiteral(t, true);
    }
    match t {
      case Whole(n) => WholeLiteral(n);
      case Decimal(spelled) => DecimalLiteral(spelled);
      case Text(s) => TextLiteral(s);
      case Word(word) => WordLiteral(word);
      case Path(path) => ParsePath(path);
      case Call(receiver, suffix) =>
        ParseCall(t, true);
        ParseOperand(receiver, Operand(receiver, 3, true), true);
        RoundTrip(receiver);
      case Infix(op, left, right) =>
        ParseInfix(t, true);
        ParseOperand(left, LeftText(t, true), true);
        ParseOperand(right, Operand(right, Level(t) + 1, true), true);
        RoundTrip(left);
        RoundTrip(right);
    }
  }

  // ----- The two parentheses precedence does not ask for -----

  lemma JoinedStrips(l: string, op: char, r: string)
    requires Reads(l, 1) && Reads(r, 1)
    ensures Strip(Joined(l, op, r)) == Joined(l, op, r)
  {
  }

  // Without them a text that opens and closes with a quote is one string literal.
  lemma QuotedEndsMisread(l: string, op: char, r: string)
    requires Reads(l, 1) && Reads(r, 1) && Operator(op) && l[0] == '"' && Last(r) == '"'
    ensures Parse(Joined(l, op, r)).Text?
  {
    hide Step, Splits, LastSplit, After, Leads, Sheltered, Quiet;
    JoinedStrips(l, op, r);
    NotInH(Joined(l, op, r));
    assert "." + "length" == ".length";
  }

  // ----- With no more parentheses than precedence asks for -----

  predicate NoneSlips(t: Tree)
    requires Printable(t)
  {
    !Slips(t, false) &&
    match t
    case Call(receiver, _) => NoneSlips(receiver)
    case Infix(_, left, right) => NoneSlips(left) && NoneSlips(right)
    case _ => true
  }

  function Infixes(t: Tree): nat {
    match t
    case Call(receiver, _) => Infixes(receiver)
    case Infix(_, left, right) => Infixes(left) + Infixes(right) + 1
    case _ => 0
  }

  // An operator a scan could split at, at whatever depth.
  predicate Joins(st: Scan, c: char) {
    Plain(st, c) && Operator(c) && (c == '-' ==> OperandEnd(st.last))
  }

  function Joints(st: Scan, s: string): nat
    decreases |s|
  {
    if s == "" then 0 else (if Joins(st, s[0]) then 1 else 0) + Joints(Step(st, s[0]), s[1..])
  }

  lemma {:induction false} JointsBoth(st: Scan, a: string, b: string)
    ensures Joints(st, a + b) == Joints(st, a) + Joints(After(st, a), b)
    decreases |a|
  {
    hide Step, Joins;
    if a == "" {
      assert a + b == b;
    } else {
      assert (a + b)[1..] == a[1..] + b;
      JointsBoth(Step(st, a[0]), a[1..], b);
    }
  }

  // Neither the depth nor which operand came before makes a difference.
  predicate Alike(st: Scan, other: Scan) {
    st.quote == other.quote && OperandEnd(st.last) == OperandEnd(other.last)
  }

  lemma {:induction false} JointsAlike(st: Scan, other: Scan, s: string)
    requires Alike(st, other)
    ensures Joints(st, s) == Joints(other, s)
    decreases |s|
  {
    if s != "" {
      JointsAlike(Step(st, s[0]), Step(other, s[0]), s[1..]);
    }
  }

  lemma {:induction false} InertJoints(st: Scan, s: string)
    requires st.quote.None? && forall c :: c in s ==> Inert(c)
    ensures Joints(st, s) == 0
    decreases |s|
  {
    if s != "" {
      assert Inert(s[0]);
      InertJoints(Step(st, s[0]), s[1..]);
    }
  }

  lemma {:induction false} QuoteJoints(st: Scan, s: string)
    requires st.quote == Some('"') && '"' !in s
    ensures Joints(st, s) == 0 && After(st, s).quote == Some('"')
    decreases |s|
  {
    if s != "" {
      assert s[0] in s && forall c :: c in s[1..] ==> c in s;
      QuoteJoints(Step(st, s[0]), s[1..]);
    }
  }

  lemma OneJoint(st: Scan, c: char)
    ensures Joints(st, [c]) == (if Joins(st, c) then 1 else 0) && After(st, [c]) == Step(st, c)
  {
    assert [c][1..] == "";
  }

  // ----- What the parser makes of it -----

  lemma {:induction false} StripJoints(s: string)
    ensures Joints(START, Strip(s)) == Joints(START, s)
    decreases |s|
  {
    if s != "" && Space(s[0]) {
      StripJoints(s[1..]);
      assert Step(START, s[0]) == START;
    } else if s != "" && Space(Last(s)) {
      var front := s[..|s| - 1];
      StripJoints(front);
      assert s == front + [Last(s)];
      JointsBoth(START, front, [Last(s)]);
      OneJoint(After(START, front), Last(s));
    }
  }

  lemma {:induction false} SplitScans(st: Scan, s: string, ops: seq<char>)
    ensures var at := LastSplit(st, s, ops); at.Some? ==> Splits(After(st, s[..at.value]), s[at.value], ops)
    decreases |s|
  {
    hide Step, Splits;
    if s != "" && LastSplit(st, s, ops).Some? {
      SplitScans(Step(st, s[0]), s[1..], ops);
      var later := LastSplit(Step(st, s[0]), s[1..], ops);
      if later.Some? {
        assert s[..later.value + 1][1..] == s[1..][..later.value];
      } else {
        assert s[..0] == "";
      }
    }
  }

  // The sides of a split have between them one joint fewer.
  lemma SplitJoints(e: string, ops: seq<char>)
    requires Ops(ops)
    ensures var at := LastSplit(START, e, ops);
            at.Some? ==> Joints(START, e) == Joints(START, e[..at.value]) + 1 + Joints(START, e[at.value + 1..])
  {
    hide Joints, After, LastSplit;
    var at := LastSplit(START, e, ops);
    if at.Some? {
      var k := at.value;
      var st := After(START, e[..k]);
      SplitScans(START, e, ops);
      assert e == e[..k] + ([e[k]] + e[k + 1..]);
      JointsBoth(START, e[..k], [e[k]] + e[k + 1..]);
      JointsBoth(st, [e[k]], e[k + 1..]);
      OneJoint(st, e[k]);
      JointsAlike(Step(st, e[k]), START, e[k + 1..]);
    }
  }

  lemma PrefixJoints(e: string, k: nat)
    requires k <= |e|
    ensures Joints(START, e[..k]) <= Joints(START, e)
  {
    assert e == e[..k] + e[k..];
    JointsBoth(START, e[..k], e[k..]);
  }

  lemma GroupJoints(e: string)
    requires |e| >= 2 && e[0] == '('
    ensures Joints(START, e[1..|e| - 1]) <= Joints(START, e)
  {
    JointsAlike(Step(START, '('), START, e[1..]);
    assert e[1..][..|e| - 2] == e[1..|e| - 1];
    PrefixJoints(e[1..], |e| - 2);
  }

  lemma LiteralIsLeaf(e: string)
    ensures Literal(e).Some? ==> Infixes(Literal(e).value) == 0
  {
  }

  // A text reads as no more operations than it has joints.
  lemma {:induction false} ParseJoints(text: string)
    ensures Infixes(Parse(text)) <= Joints(START, text)
    decreases |text|
  {
    hide Joints, LastSplit, Literal, EndsWith, SuffixOf, Strip, Closing;
    var e := Strip(text);
    StripJoints(text);
    LiteralIsLeaf(e);
    SplitJoints(e, ADDITIVE);
    SplitJoints(e, MULTIPLICATIVE);
    var plus, times := LastSplit(START, e, ADDITIVE), LastSplit(START, e, MULTIPLICATIVE);
    var sign, suffix := SuffixOf(e, SIGN_TESTS, true), SuffixOf(e, RECEIVER_SUFFIXES, false);
    if Ends(e, "length", false) {
      BeforeJoints(e, "length");
    } else if Literal(e).Some? {
    } else if plus.Some? {
      SidesJoints(e, plus.value);
    } else if times.Some? {
      SidesJoints(e, times.value);
    } else if Grouped(e) {
      GroupJoints(e);
      ParseJoints(e[1..|e| - 1]);
    } else if sign.Some? {
      BeforeJoints(e, sign.value);
    } else if suffix.Some? {
      BeforeJoints(e, suffix.value);
    }
  }

  lemma {:induction false} BeforeJoints(e: string, suffix: string)
    requires EndsWith(e, "." + suffix)
    ensures Infixes(Parse(Before(e, suffix))) <= Joints(START, e)
    decreases |e|, 0
  {
    PrefixJoints(e, |e| - |suffix| - 1);
    ParseJoints(Before(e, suffix));
  }

  lemma {:induction false} SidesJoints(e: string, k: nat)
    requires k < |e|
    ensures Infixes(Parse(Strip(e[..k]))) <= Joints(START, e[..k])
    ensures Infixes(Parse(Strip(e[k + 1..]))) <= Joints(START, e[k + 1..])
    decreases |e|, 0
  {
    StripJoints(e[..k]);
    StripJoints(e[k + 1..]);
    ParseJoints(Strip(e[..k]));
    ParseJoints(Strip(e[k + 1..]));
  }

  // ----- How many joints a printed tree has -----

  // Wherever no operand came right before it, a text has at most so many joints.
  ghost predicate Within(p: string, n: nat) {
    forall st: Scan :: st.quote.None? && !OperandEnd(st.last) ==> Joints(st, p) <= n
  }

  lemma InertWithin(p: string)
    requires forall c :: c in p ==> Inert(c)
    ensures Within(p, 0)
  {
    forall st: Scan | st.quote.None? && !OperandEnd(st.last) ensures Joints(st, p) <= 0 {
      InertJoints(st, p);
    }
  }

  lemma SignedWithin(p: string)
    requires Unsigned(p) != "" && forall c :: c in Unsigned(p) ==> Inert(c)
    ensures Within(p, 0)
  {
    if p[0] == '-' {
      forall st: Scan | st.quote.None? && !OperandEnd(st.last) ensures Joints(st, p) <= 0 {
        InertJoints(Step(st, '-'), p[1..]);
      }
    } else {
      InertWithin(p);
    }
  }

  lemma QuotedWithin(s: string)
    requires '"' !in s
    ensures Within("\"" + s + "\"", 0)
  {
    forall st: Scan | st.quote.None? && !OperandEnd(st.last) ensures Joints(st, "\"" + s + "\"") <= 0 {
      OneJoint(st, '"');
      JointsBoth(st, "\"" + s, "\"");
      JointsBoth(st, "\"", s);
      AfterBoth(st, "\"", s);
      QuoteJoints(Step(st, '"'), s);
      OneJoint(After(st, "\"" + s), '"');
    }
  }

  lemma InParensWithin(p: string, n: nat)
    requires p != "" && Within(p, n) && Leads(p, Last(p))
    ensures Within(InParens(p), n)
  {
    hide Joints, After;
    forall st: Scan | st.quote.None? && !OperandEnd(st.last) ensures Joints(st, InParens(p)) <= n {
      var inner := Step(st, '(');
      assert InParens(p) == "(" + p + ")";
      JointsBoth(st, "(" + p, ")");
      JointsBoth(st, "(", p);
      OneJoint(st, '(');
      OneJoint(After(st, "(" + p), ')');
    }
  }

  lemma SuffixedWithin(p: string, suffix: string, n: nat)
    requires Within(p, n) && p != "" && Leads(p, Last(p)) && forall c :: c in suffix ==> Inert(c)
    ensures Within(p + "." + suffix, n)
  {
    hide Joints, After;
    forall st: Scan | st.quote.None? && !OperandEnd(st.last) ensures Joints(st, p + "." + suffix) <= n {
      assert p + "." + suffix == p + ("." + suffix);
      JointsBoth(st, p, "." + suffix);
      InertJoints(After(st, p), "." + suffix);
    }
  }

  lemma SpacedJoints(st: Scan, op: char)
    requires st.quote.None? && Operator(op)
    ensures Joints(st, Spaced(op)) == if Joins(st, op) then 1 else 0
  {
    var s := Spaced(op);
    assert s[1..] == [op, ' '] && s[1..][1..] == [' '] && s[1..][1..][1..] == [];
    assert Step(st, ' ') == st && !Joins(st, ' ');
    OneJoint(Step(st, op), ' ');
  }

  // Two operands have their joints, and one more unless the operator is a minus with no operand before.
  lemma JoinedWithin(l: string, op: char, r: string, m: nat, n: nat)
    requires Operator(op) && l != "" && Leads(l, Last(l)) && Within(l, m) && Within(r, n)
    ensures Within(Joined(l, op, r), m + n + if op == '-' && !OperandEnd(Last(l)) then 0 else 1)
  {
    hide Joints, After;
    SpacedLeads(op);
    forall st: Scan | st.quote.None? && !OperandEnd(st.last)
      ensures Joints(st, Joined(l, op, r)) <= m + n + if op == '-' && !OperandEnd(Last(l)) then 0 else 1
    {
      JointsBoth(st, l + Spaced(op), r);
      JointsBoth(st, l, Spaced(op));
      AfterBoth(st, l, Spaced(op));
      SpacedJoints(After(st, l), op);
    }
  }

  lemma {:induction false} PrintWithin(t: Tree, careful: bool)
    requires Printable(t)
    ensures Within(Print(t, careful), Infixes(t))
    decreases t, 1
  {
    match t {
      case Whole(n) =>
        NumeralSpelling(n);
        SignedWithin(Print(t, careful));
      case Decimal(spelled) =>
        DecimalSpelling(spelled);
        SignedWithin(spelled);
      case Text(s) => QuotedWithin(s);
      case Word(word) =>
        KeywordSpelling(word);
        InertWithin(word);
      case Path(path) => InertWithin(path);
      case Call(receiver, suffix) =>
        OperandWithin(receiver, 3, careful);
        SuffixSpelling(suffix);
        SuffixedWithin(Operand(receiver, 3, careful), suffix, Infixes(receiver));
      case Infix(op, left, right) =>
        InfixWithin(t, careful);
    }
  }

  lemma {:induction false} OperandWithin(t: Tree, level: nat, careful: bool)
    requires Printable(t) && level <= 3
    ensures Within(Operand(t, level, careful), Infixes(t)) && Within(InParens(Print(t, careful)), Infixes(t))
    ensures Leads(Operand(t, level, careful), Last(Operand(t, level, careful)))
    decreases t, 2
  {
    PrintWithin(t, careful);
    PrintReads(t, careful);
    OperandReads(t, level, careful);
    InParensWithin(Print(t, careful), Infixes(t));
  }

  lemma {:induction false} InfixWithin(t: Tree, careful: bool)
    requires Printable(t) && t.Infix?
    ensures Within(Print(t, careful), Infixes(t))
    ensures t.op == '-' && !OperandEnd(Last(LeftText(t, careful))) ==> Within(Print(t, careful), Infixes(t) - 1)
    decreases t, 0
  {
    OperandWithin(t.left, Level(t), careful);
    OperandWithin(t.right, Level(t) + 1, careful);
    OperandsRead(t, careful);
    JoinedWithin(LeftText(t, careful), t.op, Operand(t.right, Level(t) + 1, careful), Infixes(t.left),
        Infixes(t.right));
  }

  // ----- A misread node -----

  lemma SlipText(t: Tree)
    requires Printable(t) && Slips(t, false)
    ensures var l, r := LeftText(t, false), Operand(t.right, Level(t) + 1, false);
            && Print(t, false) == Joined(l, t.op, r) && Reads(l, 1) && Reads(r, 1)
            && ((l[0] == '"' && Last(r) == '"') || (t.op == '-' && Last(l) == '?'))
  {
    hide Leads, Sheltered, Quiet;
    OperandsRead(t, false);
    LooserReads(LeftText(t, false), Level(t), 1);
    LooserReads(Operand(t.right, Level(t) + 1, false), Level(t) + 1, 1);
  }

  // A misread node reads as another tree: as one string literal, or with an operation fewer.
  lemma SlipReadsOtherwise(t: Tree)
    requires Printable(t) && t.Infix? && Slips(t, false)
    ensures Parse(Print(t, false)) != t
  {
    hide Parse, Within, Print, Reads, Operand, LeftText, Slips;
    var l, r := LeftText(t, false), Operand(t.right, Level(t) + 1, false);
    SlipText(t);
    if l[0] == '"' && Last(r) == '"' {
      QuotedEndsMisread(l, t.op, r);
    } else {
      InfixWithin(t, false);
      FewerJoints(Print(t, false), Infixes(t) - 1);
      ParseJoints(Print(t, false));
    }
  }

  lemma FewerJoints(p: string, n: nat)
    requires Within(p, n)
    ensures Joints(START, p) <= n
  {
  }

  // Reading a tree printed with no more parentheses than precedence asks for gives the tree back
  // exactly when no node of it is misread.
  lemma {:induction false} PlainRoundTrip(t: Tree)
    requires Printable(t)
    ensures Parse(Print(t, false)) == t <==> NoneSlips(t)
  {
    hide Step, Splits, LastSplit, Closing, Literal, Grouped, EndsWith, SuffixOf, Strip, Parse, Slips;
    if t.Infix? && Slips(t, false) {
      SlipReadsOtherwise(t);
    } else {
      match t {
        case Whole(n) => LeafReadsBack(t);
        case Decimal(spelled) => LeafReadsBack(t);
        case Text(s) => LeafReadsBack(t);
        case Word(word) => LeafReadsBack(t);
        case Path(path) => LeafReadsBack(t);
        case Call(receiver, suffix) =>
          OnlyInfixSlips(t);
          ParseCall(t, false);
          ParseOperand(receiver, Operand(receiver, 3, false), false);
          PlainRoundTrip(receiver);
        case Infix(op, left, right) =>
          ParseInfix(t, false);
          LeftIs(t, false);
          ParseOperand(left, LeftText(t, false), false);
          ParseOperand(right, Operand(right, Level(t) + 1, false), false);
          PlainRoundTrip(left);
          PlainRoundTrip(right);
      }
    }
  }

  lemma OnlyInfixSlips(t: Tree)
    requires Printable(t) && !t.Infix?
    ensures !Slips(t, false)
  {
  }

  lemma LeafReadsBack(t: Tree)
    requires Printable(t) && !t.Call? && !t.Infix?
    ensures Parse(Print(t, false)) == t && NoneSlips(t)
  {
    assert Print(t, false) == Print(t, true);
    RoundTrip(t);
  }

  // A minus after a call that ends in `?` is no operator: the text never reads as the subtraction.
  lemma QuestionMinusMisread(path: string, suffix: string, r: Tree)
    requires Spellable(path) && Suffixes(suffix) && Last(suffix) == '?' && Printable(r) && OneLine(r)
    ensures var t := Infix('-', Call(Path(path), suffix), r);
            Printable(t) && Print(t, false) == Joined(path + "." + suffix, '-', Operand(r, 2, false))
            && Parse(Print(t, false)) != t
  {
    var t := Infix('-', Call(Path(path), suffix), r);
    SuffixSpelling(suffix);
    assert Print(Call(Path(path), suffix), false) == path + "." + suffix by {
      assert Operand(Path(path), 3, false) == path;
    }
    assert Last(path + "." + suffix) == '?';
    assert Slips(t, false);
    SlipReadsOtherwise(t);
  }
}
