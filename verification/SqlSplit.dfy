/** The statement splitter of the production-window script: comments, quotes and dollar-quotes hide semicolons. */
module SqlSplit {

  import opened Wrappers

  datatype Span = Span(start: nat, end: nat)

  /** `Err(i)` is the dollar-quote opened at `i` and never closed. */
  datatype Result<+T> = Ok(value: T) | Err(position: nat)

  // ---------------------------------------------------------------- finding text

  predicate At(t: string, pattern: string, i: nat) {
    i + |pattern| <= |t| && forall k :: 0 <= k < |pattern| ==> t[i + k] == pattern[k]
  }

  /** The first place at or after `i` where the pattern stands. */
  function Find(t: string, pattern: string, i: nat): (r: Option<nat>)
    ensures r.Some? ==> i <= r.value && At(t, pattern, r.value) && forall k :: i <= k < r.value ==> !At(t, pattern, k)
    ensures r.None? ==> forall k :: i <= k ==> !At(t, pattern, k)
    decreases |t| - i
  {
    if At(t, pattern, i) then Some(i)
    else if i >= |t| then None
    else Find(t, pattern, i + 1)
  }

  predicate IdentStart(c: char) {
    'A' <= c <= 'Z' || 'a' <= c <= 'z' || c == '_'
  }

  predicate IdentPart(c: char) {
    IdentStart(c) || '0' <= c <= '9'
  }

  function IdentEnd(t: string, i: nat): (r: nat)
    requires i <= |t|
    ensures i <= r <= |t| && (r < |t| ==> !IdentPart(t[r])) && forall k :: i <= k < r ==> IdentPart(t[k])
    decreases |t| - i
  {
    if i < |t| && IdentPart(t[i]) then IdentEnd(t, i + 1) else i
  }

  /** Where the dollar-quote tag that starts at `i` ends, when one does start there: `$$` or `$name$`. */
  function TagEnd(t: string, i: nat): (r: Option<nat>)
    requires i < |t| && t[i] == '$'
    ensures r.Some? ==> i + 2 <= r.value <= |t|
  {
    if i + 1 < |t| && t[i + 1] == '$' then Some(i + 2)
    else if i + 1 < |t| && IdentStart(t[i + 1]) then
      var e := IdentEnd(t, i + 1);
      if e < |t| && t[e] == '$' then Some(e + 1) else None
    else None
  }

  /** Where the quoted text whose body starts at `i` closes; doubled quotes stay inside. */
  function QuoteEnd(t: string, i: nat): (r: nat)
    requires i <= |t|
    ensures i <= r <= |t|
    decreases |t| - i
  {
    if i == |t| then i
    else if t[i] != '\'' then QuoteEnd(t, i + 1)
    else if i + 1 < |t| && t[i + 1] == '\'' then QuoteEnd(t, i + 2)
    else i
  }

  // ---------------------------------------------------------------- one scanner step

  datatype Token = Skip(next: nat) | Semicolon | Unclosed

  function TokenAt(t: string, i: nat): (r: Token)
    requires i < |t|
    ensures r.Skip? ==> i < r.next <= |t| + 1
  {
    if At(t, "--", i) then
      var j := Find(t, "\n", i);
      Skip(if j.None? then |t| else j.value + 1)
    else if At(t, "/*", i) then
      var j := Find(t, "*/", i + 2);
      Skip(if j.None? then |t| else j.value + 2)
    else if t[i] == '\'' then Skip(QuoteEnd(t, i + 1) + 1)
    else if t[i] == '$' then DollarToken(t, i)
    else if t[i] == ';' then Semicolon
    else Skip(i + 1)
  }

  function DollarToken(t: string, i: nat): (r: Token)
    requires i < |t| && t[i] == '$'
    ensures !r.Semicolon? && (r.Skip? ==> i < r.next <= |t|)
  {
    var e := TagEnd(t, i);
    if e.None? then Skip(i + 1)
    else
      var j := Find(t, t[i..e.value], e.value);
      if j.None? then Unclosed else Skip(j.value + (e.value - i))
  }

  /** The positions just after each top-level semicolon at or after `i`. */
  function Ends(t: string, i: nat): Result<seq<nat>>
    decreases |t| + 1 - i
  {
    if i >= |t| then Ok([])
    else
      match TokenAt(t, i)
      case Unclosed => Err(i)
      case Skip(j) => Ends(t, j)
      case Semicolon => Prepend([i + 1], Ends(t, i + 1))
  }

  function Prepend(first: seq<nat>, rest: Result<seq<nat>>): Result<seq<nat>> {
    if rest.Ok? then Ok(first + rest.value) else rest
  }

  /** What Python's `isspace` accepts. */
  predicate Space(c: char) {
    || '\t' <= c <= '\r' || '\U{1C}' <= c <= ' ' || c == '\U{85}' || c == '\U{A0}' || c == '\U{1680}'
    || '\U{2000}' <= c <= '\U{200A}' || c == '\U{2028}' || c == '\U{2029}' || c == '\U{202F}' || c == '\U{205F}' || c == '\U{3000}'
  }

  predicate Blank(s: string) {
    forall k :: 0 <= k < |s| ==> Space(s[k])
  }

  function StartOf(ends: seq<nat>, k: nat): nat
    requires k <= |ends|
  {
    if k == 0 then 0 else ends[k - 1]
  }

  function SpansOf(ends: seq<nat>): (r: seq<Span>)
    ensures |r| == |ends| && forall k {:trigger r[k]} :: 0 <= k < |r| ==> r[k] == Span(StartOf(ends, k), ends[k])
  {
    seq(|ends|, k requires 0 <= k < |ends| => Span(StartOf(ends, k), ends[k]))
  }

  function WithTail(t: string, ends: seq<nat>): seq<Span>
    requires StartOf(ends, |ends|) <= |t|
  {
    var start := StartOf(ends, |ends|);
    SpansOf(ends) + if Blank(t[start..]) then [] else [Span(start, |t|)]
  }

  function Split(t: string): Result<seq<Span>> {
    EndsRise(t, 0);
    match Ends(t, 0)
    case Err(i) => Err(i)
    case Ok(ends) => Ok(WithTail(t, ends))
  }

  predicate Rising(ends: seq<nat>, low: nat, high: nat) {
    && (forall k :: 0 <= k < |ends| ==> low < ends[k] <= high)
    && (forall k, l :: 0 <= k < l < |ends| ==> ends[k] < ends[l])
  }

  lemma {:induction false} EndsRise(t: string, i: nat)
    ensures Ends(t, i).Ok? ==> Rising(Ends(t, i).value, i, if i <= |t| then |t| else i)
    decreases |t| + 1 - i
  {
    hide TokenAt;
    if i < |t| {
      match TokenAt(t, i)
      case Unclosed =>
      case Skip(j) => EndsRise(t, j);
      case Semicolon => EndsRise(t, i + 1);
    }
  }

  // ---------------------------------------------------------------- the scanner

  method SplitStatements(t: string) returns (r: Result<seq<Span>>)
    ensures r == Split(t)
  {
    var spans: seq<Span> := [];
    ghost var ends: seq<nat> := [];
    var i, start, n := 0, 0, |t|;
    EndsRise(t, 0);
    PrependNothing(Ends(t, 0));
    hide Ends, TokenAt, QuoteEnd, At, Prepend, SpansOf, Split, Blank, Find, TagEnd;
    while i < n
      invariant i <= n + 1
      invariant Ends(t, 0) == Prepend(ends, Ends(t, i))
      invariant spans == SpansOf(ends) && start == StartOf(ends, |ends|) <= n
      decreases n + 1 - i
    {
      StepEnds(t, i, ends);
      var token := ScanToken(t, i);
      match token {
        case Unclosed =>
          FailSplit(t, i, ends);
          return Err(i);
        case Skip(next) =>
          i := next;
        case Semicolon =>
          i := i + 1;
          SnocSpan(ends, start, i);
          spans := spans + [Span(start, i)];
          start := i;
          ends := ends + [i];
      }
    }
    Finish(t, i, ends);
    if !Blank(t[start..]) {
      spans := spans + [Span(start, n)];
    }
    return Ok(spans);
  }

  /** One turn of the scanner, by the character under it. */
  method ScanToken(t: string, i: nat) returns (token: Token)
    requires i < |t|
    ensures token == TokenAt(t, i)
  {
    hide *;
    StepToken(t, i);
    var c := t[i];
    if c == '-' && At(t, "--", i) {
      var j := Find(t, "\n", i);
      return Skip(if j.None? then |t| else j.value + 1);
    } else if c == '/' && At(t, "/*", i) {
      var j := Find(t, "*/", i + 2);
      return Skip(if j.None? then |t| else j.value + 2);
    } else if c == '\'' {
      var next := ScanQuoted(t, i);
      return Skip(next);
    } else if c == '$' {
      var e := TagEnd(t, i);
      if e.None? {
        return Skip(i + 1);
      }
      var tag := t[i..e.value];
      var j := Find(t, tag, e.value);
      return if j.None? then Unclosed else Skip(j.value + |tag|);
    } else if c == ';' {
      return Semicolon;
    }
    return Skip(i + 1);
  }

  method ScanQuoted(t: string, start: nat) returns (i: nat)
    requires start < |t|
    ensures i == QuoteEnd(t, start + 1) + 1
  {
    i := start + 1;
    while i < |t|
      invariant i <= |t| && QuoteEnd(t, i) == QuoteEnd(t, start + 1)
    {
      if t[i] == '\'' {
        if i + 1 < |t| && t[i + 1] == '\'' {
          i := i + 2;
          continue;
        }
        break;
      }
      i := i + 1;
    }
    i := i + 1;
  }

  lemma {:induction false} StepEnds(t: string, i: nat, ends: seq<nat>)
    requires i < |t|
    ensures Prepend(ends, Ends(t, i))
            == match TokenAt(t, i)
               case Unclosed => Err(i)
               case Skip(j) => Prepend(ends, Ends(t, j))
               case Semicolon => Prepend(ends + [i + 1], Ends(t, i + 1))
  {
    hide TokenAt;
    if TokenAt(t, i).Semicolon? && Ends(t, i + 1).Ok? {
      assert ends + ([i + 1] + Ends(t, i + 1).value) == ends + [i + 1] + Ends(t, i + 1).value;
    }
  }

  /** The scanner's branches by the character under it. */
  lemma {:induction false} StepToken(t: string, i: nat)
    requires i < |t|
    ensures At(t, "--", i) ==> t[i] == '-'
    ensures At(t, "/*", i) ==> t[i] == '/'
    ensures TokenAt(t, i)
            == if t[i] == '-' && At(t, "--", i) then
                 var j := Find(t, "\n", i);
                 Skip(if j.None? then |t| else j.value + 1)
               else if t[i] == '/' && At(t, "/*", i) then
                 var j := Find(t, "*/", i + 2);
                 Skip(if j.None? then |t| else j.value + 2)
               else if t[i] == '\'' then Skip(QuoteEnd(t, i + 1) + 1)
               else if t[i] == '$' then
                 var e := TagEnd(t, i);
                 if e.None? then Skip(i + 1)
                 else
                   var j := Find(t, t[i..e.value], e.value);
                   if j.None? then Unclosed else Skip(j.value + (e.value - i))
               else if t[i] == ';' then Semicolon
               else Skip(i + 1)
  {
    hide Find, TagEnd, QuoteEnd;
    assert "--"[0] == '-' && "/*"[0] == '/';
    assert At(t, "--", i) ==> t[i + 0] == "--"[0];
    assert At(t, "/*", i) ==> t[i + 0] == "/*"[0];
  }

  lemma {:induction false} SnocSpan(ends: seq<nat>, start: nat, i: nat)
    requires start == StartOf(ends, |ends|)
    ensures SpansOf(ends + [i]) == SpansOf(ends) + [Span(start, i)]
  {
    hide SpansOf;
    var longer := ends + [i];
    forall k | 0 <= k < |longer|
      ensures SpansOf(longer)[k] == (SpansOf(ends) + [Span(start, i)])[k]
    {
      assert StartOf(longer, k) == StartOf(ends, k);
    }
  }

  lemma {:induction false} PrependNothing(r: Result<seq<nat>>)
    ensures Prepend([], r) == r
  {
    if r.Ok? {
      assert [] + r.value == r.value;
    }
  }

  lemma {:induction false} FailSplit(t: string, i: nat, ends: seq<nat>)
    requires i < |t| && TokenAt(t, i) == Unclosed && Ends(t, 0) == Prepend(ends, Ends(t, i))
    ensures Split(t) == Err(i)
  {
    hide TokenAt;
  }

  lemma {:induction false} Finish(t: string, i: nat, ends: seq<nat>)
    requires i >= |t| && Ends(t, 0) == Prepend(ends, Ends(t, i)) && StartOf(ends, |ends|) <= |t|
    ensures var start := StartOf(ends, |ends|);
            Split(t) == Ok(if Blank(t[start..]) then SpansOf(ends) else SpansOf(ends) + [Span(start, |t|)])
  {
    hide SpansOf, Blank;
    assert ends + [] == ends;
    assert SpansOf(ends) + [] == SpansOf(ends);
  }

  // ---------------------------------------------------------------- what the pieces of text are

  predicate LineComment(t: string, a: nat, b: nat) {
    At(t, "--", a) && FirstLine(t, a + 2, b)
  }

  /** The text from `a` to `b` is the rest of a line. */
  predicate FirstLine(t: string, a: nat, b: nat) {
    && a <= b <= |t|
    && (forall k :: a <= k < b - 1 ==> t[k] != '\n')
    && (b == |t| || (a < b && t[b - 1] == '\n'))
  }

  predicate ClosesBlock(t: string, k: nat) {
    At(t, "*/", k)
  }

  predicate BlockComment(t: string, a: nat, b: nat) {
    && At(t, "/*", a) && b <= |t|
    && if b >= a + 4 && ClosesBlock(t, b - 2) then forall k :: a + 2 <= k < b - 2 ==> !ClosesBlock(t, k)
       else b == |t| && forall k :: a + 2 <= k < |t| ==> !ClosesBlock(t, k)
  }

  /** From `k` to `e` there are only plain characters and doubled quotes. */
  predicate QuoteBody(t: string, k: nat, e: nat)
    requires e <= |t|
    decreases e - k
  {
    || k == e
    || (k < e && t[k] != '\'' && QuoteBody(t, k + 1, e))
    || (k + 1 < e && t[k] == '\'' && t[k + 1] == '\'' && QuoteBody(t, k + 2, e))
  }

  /** A quoted string, closed by a quote that is not doubled or cut off by the end of the text. */
  predicate Quoted(t: string, a: nat, b: nat) {
    && a < b <= |t| && t[a] == '\''
    && ((b == |t| && QuoteBody(t, a + 1, b))
        || (a + 1 < b && QuoteBody(t, a + 1, b - 1) && t[b - 1] == '\'' && (b < |t| ==> t[b] != '\'')))
  }

  /** `$$` or `$name$`. */
  predicate IsTag(t: string, a: nat, m: nat) {
    && a + 2 <= m <= |t| && t[a] == '$' && t[m - 1] == '$'
    && (m > a + 2 ==> IdentStart(t[a + 1]))
    && forall k :: a + 1 <= k < m - 1 ==> IdentPart(t[k])
  }

  /** A tag, and everything up to its next occurrence. */
  predicate DollarQuotedBy(t: string, a: nat, m: nat, b: nat) {
    && IsTag(t, a, m) && m + (m - a) <= b
    && At(t, t[a..m], b - (m - a))
    && forall k :: m <= k < b - (m - a) ==> !At(t, t[a..m], k)
  }

  predicate DollarQuoted(t: string, a: nat, b: nat) {
    exists m :: a + 2 <= m <= |t| && DollarQuotedBy(t, a, m, b)
  }

  predicate OpensDollarQuote(t: string, a: nat) {
    exists m :: a + 2 <= m <= |t| && IsTag(t, a, m)
  }

  /** A single character that opens nothing and is no semicolon. */
  predicate Plain(t: string, a: nat, b: nat) {
    && a < |t| && b == a + 1
    && !At(t, "--", a) && !At(t, "/*", a) && t[a] != '\'' && t[a] != ';' && !OpensDollarQuote(t, a)
  }

  predicate Piece(t: string, a: nat, b: nat) {
    LineComment(t, a, b) || BlockComment(t, a, b) || Quoted(t, a, b) || DollarQuoted(t, a, b) || Plain(t, a, b)
  }

  /** Where a scanner step stops inside the text. */
  function Stop(t: string, i: nat): (r: nat)
    requires i < |t| && TokenAt(t, i).Skip?
    ensures i < r <= |t|
  {
    var j := TokenAt(t, i).next;
    if j > |t| then |t| else j
  }

  lemma {:induction false} LineCommentStops(t: string, i: nat, b: nat)
    requires At(t, "--", i)
    ensures var j := Find(t, "\n", i);
            LineComment(t, i, b) <==> b == if j.None? then |t| else j.value + 1
  {
    hide At, Find;
    var j := Find(t, "\n", i);
    TwoDashes(t, i);
    NewlineAt(t);
    LineIsUnique(t, i + 2, if j.None? then |t| else j.value + 1, b);
  }

  lemma {:induction false} TwoDashes(t: string, i: nat)
    requires At(t, "--", i)
    ensures i + 2 <= |t| && t[i] == '-' && t[i + 1] == '-'
  {
    assert t[i + 0] == "--"[0] && t[i + 1] == "--"[1];
  }

  lemma {:induction false} LineIsUnique(t: string, a: nat, b: nat, c: nat)
    requires a <= b <= |t| && forall k :: a <= k < b - 1 ==> t[k] != '\n'
    requires (b == |t| && (a < b ==> t[b - 1] != '\n')) || (a < b && t[b - 1] == '\n')
    ensures FirstLine(t, a, c) <==> b == c
  {
  }

  lemma {:induction false} NewlineAt(t: string)
    ensures forall k: nat :: At(t, "\n", k) <==> k < |t| && t[k] == '\n'
  {
    assert "\n"[0] == '\n';
  }

  lemma {:induction false} BlockCommentStops(t: string, i: nat, b: nat)
    requires At(t, "/*", i)
    ensures var j := Find(t, "*/", i + 2);
            BlockComment(t, i, b) <==> b == if j.None? then |t| else j.value + 2
  {
    hide Find;
    var j := Find(t, "*/", i + 2);
    assert j.Some? ==> ClosesBlock(t, j.value);
    assert forall k :: i + 2 <= k && (j.Some? ==> k < j.value) ==> !ClosesBlock(t, k);
    hide At;
    BlockEndsInside(t);
  }

  lemma {:induction false} BlockEndsInside(t: string)
    ensures forall k: nat :: ClosesBlock(t, k) ==> k + 2 <= |t|
  {
  }

  lemma {:induction false} QuoteStops(t: string, i: nat, e: nat)
    requires i <= e <= |t|
    ensures QuoteBody(t, i, e) && (e == |t| || (t[e] == '\'' && !(e + 1 < |t| && t[e + 1] == '\''))) <==> e == QuoteEnd(t, i)
    decreases e - i
  {
    if i < e {
      if t[i] != '\'' {
        QuoteStops(t, i + 1, e);
      } else if i + 1 < |t| && t[i + 1] == '\'' {
        if i + 1 < e {
          QuoteStops(t, i + 2, e);
        }
      }
    }
  }

  lemma {:induction false} QuotedStops(t: string, i: nat, b: nat)
    requires i < |t| && t[i] == '\''
    ensures var e := QuoteEnd(t, i + 1);
            Quoted(t, i, b) <==> b == if e < |t| then e + 1 else |t|
  {
    var e := QuoteEnd(t, i + 1);
    hide QuoteEnd, QuoteBody;
    QuoteStops(t, i + 1, e);
    QuoteStops(t, i + 1, |t|);
    if i + 1 < b <= |t| {
      QuoteStops(t, i + 1, b - 1);
    }
  }

  lemma {:induction false} TagIsUnique(t: string, i: nat, m: nat)
    requires i < |t| && t[i] == '$'
    ensures IsTag(t, i, m) <==> TagEnd(t, i) == Some(m)
  {
    hide IdentEnd;
    if IsTag(t, i, m) {
      if m > i + 2 {
        assert IdentPart(t[i + 1]);
        assert IdentEnd(t, i + 1) == m - 1;
      }
    }
  }

  lemma {:induction false} DollarStops(t: string, i: nat, b: nat)
    requires i < |t| && t[i] == '$'
    ensures OpensDollarQuote(t, i) <==> TagEnd(t, i).Some?
    ensures var e := TagEnd(t, i);
            DollarQuoted(t, i, b) <==>
              && e.Some?
              && var j := Find(t, t[i..e.value], e.value);
                 j.Some? && b == j.value + (e.value - i)
  {
    hide IsTag, TagEnd, At, Find;
    forall m: nat
      ensures IsTag(t, i, m) <==> TagEnd(t, i) == Some(m)
    {
      TagIsUnique(t, i, m);
    }
    if TagEnd(t, i).Some? {
      DollarStopsBy(t, i, TagEnd(t, i).value, b);
    }
  }

  lemma {:induction false} DollarStopsBy(t: string, i: nat, m: nat, b: nat)
    requires i < m <= |t| && IsTag(t, i, m)
    ensures var j := Find(t, t[i..m], m);
            DollarQuotedBy(t, i, m, b) <==> j.Some? && b == j.value + (m - i)
  {
    hide IsTag, Find, At;
  }

  /** The scanner's next step covers exactly the one piece of text that starts there: the leapfrogging
      searches find what the definitions of comment, quote and dollar-quote say. */
  lemma {:induction false} StepIsThePiece(t: string, i: nat, b: nat)
    requires i < |t|
    ensures Piece(t, i, b) <==> TokenAt(t, i).Skip? && b == Stop(t, i)
    ensures TokenAt(t, i).Semicolon? <==> t[i] == ';'
  {
    StartsDiffer(t, i);
    if At(t, "--", i) {
      LineCommentStops(t, i, b);
    } else if At(t, "/*", i) {
      BlockCommentStops(t, i, b);
    } else if t[i] == '\'' {
      QuotedStops(t, i, b);
    } else if t[i] == '$' {
      DollarStops(t, i, b);
    }
  }

  /** Each kind of piece starts with its own character. */
  lemma {:induction false} StartsDiffer(t: string, i: nat)
    requires i < |t|
    ensures At(t, "--", i) ==> t[i] == '-'
    ensures At(t, "/*", i) ==> t[i] == '/'
    ensures OpensDollarQuote(t, i) ==> t[i] == '$'
    ensures forall b :: DollarQuoted(t, i, b) ==> OpensDollarQuote(t, i)
  {
    assert "--"[0] == '-' && "/*"[0] == '/';
    assert At(t, "--", i) ==> t[i + 0] == "--"[0];
    assert At(t, "/*", i) ==> t[i + 0] == "/*"[0];
    hide At;
  }

  // ---------------------------------------------------------------- where spans end

  /** The text from `i` to `p` is a run of whole pieces and top-level semicolons. */
  ghost predicate Reaches(t: string, i: nat, p: nat)
    decreases p - i
  {
    i == p || exists n :: i < n <= p && Advances(t, i, n) && Reaches(t, n, p)
  }

  predicate Advances(t: string, i: nat, n: nat) {
    i < |t| && (Piece(t, i, n) || (t[i] == ';' && n == i + 1))
  }

  ghost predicate TopLevelSemicolon(t: string, p: nat) {
    p < |t| && t[p] == ';' && Reaches(t, 0, p)
  }

  /** A dollar-quote opens at `p`, outside everything else, and nothing closes it. */
  ghost predicate UnclosedDollarQuote(t: string, p: nat) {
    p < |t| && OpensDollarQuote(t, p) && Reaches(t, 0, p) && forall b: nat :: !DollarQuoted(t, p, b)
  }

  function NextAt(t: string, i: nat): (r: nat)
    requires i < |t| && !TokenAt(t, i).Unclosed?
    ensures i < r <= |t|
  {
    if TokenAt(t, i).Semicolon? then i + 1 else Stop(t, i)
  }

  lemma {:induction false} AdvanceIsUnique(t: string, i: nat, n: nat)
    requires i < |t|
    ensures Advances(t, i, n) <==> !TokenAt(t, i).Unclosed? && n == NextAt(t, i)
  {
    hide Piece, TokenAt;
    StepIsThePiece(t, i, n);
    StepIsThePiece(t, i, i + 1);
    if Piece(t, i, n) {
      PieceIsNoSemicolon(t, i, n);
    }
  }

  lemma {:induction false} PieceIsNoSemicolon(t: string, i: nat, n: nat)
    requires i < |t| && Piece(t, i, n)
    ensures t[i] != ';'
  {
    StartsDiffer(t, i);
  }

  lemma {:induction false} ReachStep(t: string, i: nat, p: nat)
    requires i < |t|
    ensures Reaches(t, i, p) <==> i == p || (!TokenAt(t, i).Unclosed? && NextAt(t, i) <= p && Reaches(t, NextAt(t, i), p))
  {
    hide Advances, NextAt, TokenAt;
    forall n: nat
      ensures Advances(t, i, n) <==> !TokenAt(t, i).Unclosed? && n == NextAt(t, i)
    {
      AdvanceIsUnique(t, i, n);
    }
  }

  lemma {:induction false} EndsByReach(t: string, i: nat, e: nat)
    requires i <= |t|
    ensures Ends(t, i).Ok? ==> (e in Ends(t, i).value <==> 0 < e <= |t| && t[e - 1] == ';' && Reaches(t, i, e - 1))
    ensures Ends(t, i).Err? ==> Ends(t, i).position < |t| && TokenAt(t, Ends(t, i).position).Unclosed?
                                && i <= Ends(t, i).position && Reaches(t, i, Ends(t, i).position)
    decreases |t| - i
  {
    hide TokenAt, NextAt, Reaches;
    if i < |t| {
      StepFacts(t, i);
      ReachSelf(t, i);
      if !TokenAt(t, i).Unclosed? {
        EndsByReach(t, NextAt(t, i), e);
        if e > 0 {
          ReachStep(t, i, e - 1);
          ReachOrder(t, NextAt(t, i), e - 1);
        }
        if Ends(t, i).Err? {
          ReachStep(t, i, Ends(t, i).position);
        }
      }
    } else if e > 0 {
      StuckAtEnd(t, i, e - 1);
    }
  }

  lemma {:induction false} ReachOrder(t: string, i: nat, p: nat)
    ensures Reaches(t, i, p) ==> i <= p
  {
  }

  lemma {:induction false} ReachSelf(t: string, i: nat)
    ensures Reaches(t, i, i)
  {
  }

  lemma {:induction false} StuckAtEnd(t: string, i: nat, p: nat)
    requires i >= |t|
    ensures Reaches(t, i, p) ==> i == p
  {
  }

  /** How one step moves, and that stepping past the end is stepping to it. */
  lemma {:induction false} StepFacts(t: string, i: nat)
    requires i < |t|
    ensures TokenAt(t, i).Semicolon? <==> t[i] == ';'
    ensures TokenAt(t, i).Skip? ==> Ends(t, i) == Ends(t, NextAt(t, i))
    ensures TokenAt(t, i).Semicolon? ==> NextAt(t, i) == i + 1
  {
    hide TokenAt;
    StepIsThePiece(t, i, i + 1);
  }

  /** Spans end exactly just after the semicolons that no quote, comment or dollar-quote hides, and the
      splitter gives up exactly on a dollar-quote that is never closed. */
  lemma {:induction false} SpansEndAtTopLevelSemicolons(t: string, e: nat)
    ensures Ends(t, 0).Ok? ==> (e in Ends(t, 0).value <==> e > 0 && TopLevelSemicolon(t, e - 1))
    ensures Split(t).Err? <==> exists p :: UnclosedDollarQuote(t, p)
    ensures Split(t).Err? ==> UnclosedDollarQuote(t, Split(t).position)
  {
    hide TokenAt, Reaches, Ends, Split;
    EndsByReach(t, 0, e);
    if Ends(t, 0).Err? {
      UnclosedToken(t, Ends(t, 0).position);
      assert UnclosedDollarQuote(t, Ends(t, 0).position);
    }
    if p: nat :| UnclosedDollarQuote(t, p) {
      UnclosedToken(t, p);
      UnclosedMeansError(t, 0, p);
    }
    SplitFails(t);
  }

  lemma {:induction false} SplitFails(t: string)
    ensures Split(t).Err? <==> Ends(t, 0).Err?
    ensures Split(t).Err? ==> Split(t).position == Ends(t, 0).position
  {
    hide Ends;
  }

  lemma {:induction false} UnclosedToken(t: string, p: nat)
    requires p < |t|
    ensures TokenAt(t, p).Unclosed? <==> OpensDollarQuote(t, p) && forall b: nat :: !DollarQuoted(t, p, b)
  {
    StartsDiffer(t, p);
    hide Find, OpensDollarQuote, DollarQuoted, TagEnd, At;
    if t[p] == '$' {
      forall b: nat
        ensures DollarQuoted(t, p, b) <==>
                  && TagEnd(t, p).Some?
                  && var j := Find(t, t[p..TagEnd(t, p).value], TagEnd(t, p).value);
                     j.Some? && b == j.value + (TagEnd(t, p).value - p)
      {
        DollarStops(t, p, b);
      }
      DollarStops(t, p, 0);
      if TagEnd(t, p).Some? {
        var j := Find(t, t[p..TagEnd(t, p).value], TagEnd(t, p).value);
        if j.Some? {
          assert DollarQuoted(t, p, j.value + (TagEnd(t, p).value - p));
        }
      }
    }
  }

  lemma {:induction false} UnclosedMeansError(t: string, i: nat, p: nat)
    requires p < |t| && TokenAt(t, p).Unclosed? && Reaches(t, i, p)
    ensures Ends(t, i).Err?
    decreases |t| - i
  {
    hide TokenAt, Reaches, NextAt;
    ReachOrder(t, i, p);
    if i < p {
      ReachStep(t, i, p);
      StepFacts(t, i);
      UnclosedMeansError(t, NextAt(t, i), p);
    }
  }

  // ---------------------------------------------------------------- the spans cover the text

  function TextOf(t: string, s: Span): string {
    if s.start <= s.end <= |t| then t[s.start..s.end] else []
  }

  function Join(t: string, spans: seq<Span>, n: nat): string
    requires n <= |spans|
  {
    if n == 0 then [] else Join(t, spans, n - 1) + TextOf(t, spans[n - 1])
  }

  lemma {:induction false} JoinIsPrefix(t: string, ends: seq<nat>, n: nat, spans: seq<Span>)
    requires n <= |ends| <= |spans| && Rising(ends, 0, |t|) && forall k {:trigger spans[k]} :: 0 <= k < n ==> spans[k] == Span(StartOf(ends, k), ends[k])
    ensures StartOf(ends, n) <= |t| && Join(t, spans, n) == t[..StartOf(ends, n)]
  {
    hide Rising, TextOf;
    if n > 0 {
      RisingAt(ends, |t|, n - 1);
      JoinIsPrefix(t, ends, n - 1, spans);
      var middle, end := StartOf(ends, n - 1), ends[n - 1];
      assert TextOf(t, Span(middle, end)) == t[middle..end] by { TextBetween(t, middle, end); }
      Glue(t, middle, end);
    }
  }

  lemma {:induction false} RisingAt(ends: seq<nat>, high: nat, k: nat)
    requires k < |ends| && Rising(ends, 0, high)
    ensures StartOf(ends, k) < ends[k] <= high
  {
  }

  lemma {:induction false} TextBetween(t: string, start: nat, end: nat)
    requires start <= end <= |t|
    ensures TextOf(t, Span(start, end)) == t[start..end]
  {
  }

  lemma {:induction false} Glue(t: string, middle: nat, end: nat)
    requires middle <= end <= |t|
    ensures t[..middle] + t[middle..end] == t[..end]
  {
  }

  function LastEnd(spans: seq<Span>): nat {
    if spans == [] then 0 else spans[|spans| - 1].end
  }

  /** The spans start at the beginning, follow each other without gap or overlap, and joined they are the
      text up to a blank tail. */
  lemma {:induction false} SpansCoverTheText(t: string)
    requires Split(t).Ok?
    ensures var spans := Split(t).value;
            && Contiguous(spans, |t|) && LastEnd(spans) <= |t|
            && Join(t, spans, |spans|) == t[..LastEnd(spans)]
            && Blank(t[LastEnd(spans)..])
  {
    hide Ends;
    EndsRise(t, 0);
    SpansOfEndsCover(t, Ends(t, 0).value);
  }

  ghost predicate Contiguous(spans: seq<Span>, high: nat) {
    && (spans != [] ==> spans[0].start == 0)
    && (forall k :: 0 <= k < |spans| ==> spans[k].start < spans[k].end <= high)
    && (forall j, k :: 0 <= j < k < |spans| && k == j + 1 ==> spans[j].end == spans[k].start)
  }

  lemma {:induction false} EndsAreContiguous(ends: seq<nat>, high: nat)
    requires Rising(ends, 0, high)
    ensures Contiguous(SpansOf(ends), high) && LastEnd(SpansOf(ends)) == StartOf(ends, |ends|) <= high
  {
    hide SpansOf, Rising;
    var spans := SpansOf(ends);
    forall k | 0 <= k < |spans|
      ensures spans[k].start < spans[k].end <= high
    {
      RisingAt(ends, high, k);
    }
  }

  lemma {:induction false} ContiguousTail(spans: seq<Span>, high: nat)
    requires Contiguous(spans, high) && LastEnd(spans) < high
    ensures Contiguous(spans + [Span(LastEnd(spans), high)], high)
  {
  }

  lemma {:induction false} SpansOfEndsCover(t: string, ends: seq<nat>)
    requires Rising(ends, 0, |t|)
    ensures var spans := WithTail(t, ends);
            && Contiguous(spans, |t|) && LastEnd(spans) <= |t|
            && Join(t, spans, |spans|) == t[..LastEnd(spans)]
            && Blank(t[LastEnd(spans)..])
  {
    hide Blank, Join, Rising, TextOf, SpansOf, Contiguous;
    var spans := SpansOf(ends);
    var start := StartOf(ends, |ends|);
    EndsAreContiguous(ends, |t|);
    if Blank(t[start..]) {
      assert spans + [] == spans;
      JoinIsPrefix(t, ends, |ends|, spans);
    } else {
      NotBlankMeansMore(t, start);
      TailCovers(t, ends);
      ContiguousTail(spans, |t|);
    }
  }

  lemma {:induction false} TailCovers(t: string, ends: seq<nat>)
    requires Rising(ends, 0, |t|) && StartOf(ends, |ends|) <= |t|
    ensures var spans := SpansOf(ends) + [Span(StartOf(ends, |ends|), |t|)];
            Join(t, spans, |spans|) == t[..|t|] && Blank(t[|t|..])
  {
    hide Join, Rising, TextOf, SpansOf, Blank;
    var start := StartOf(ends, |ends|);
    var spans := SpansOf(ends) + [Span(start, |t|)];
    JoinIsPrefix(t, ends, |ends|, spans);
    EmptyIsBlank(t);
    JoinNext(t, spans, |ends|);
    TextBetween(t, start, |t|);
    Glue(t, start, |t|);
  }

  lemma {:induction false} JoinNext(t: string, spans: seq<Span>, n: nat)
    requires n < |spans|
    ensures Join(t, spans, n + 1) == Join(t, spans, n) + TextOf(t, spans[n])
  {
  }

  lemma {:induction false} NotBlankMeansMore(t: string, start: nat)
    requires start <= |t| && !Blank(t[start..])
    ensures start < |t|
  {
  }

  lemma {:induction false} EmptyIsBlank(t: string)
    ensures Blank(t[|t|..])
  {
  }

  // ---------------------------------------------------------------- splitting a span again

  /** `u` is the text from `a` on, up to and including a semicolon. */
  predicate Window(u: string, t: string, a: nat) {
    && u != [] && a + |u| <= |t| && u[|u| - 1] == ';'
    && forall k :: 0 <= k < |u| ==> u[k] == t[a + k]
  }

  lemma {:induction false} LocalAt(u: string, t: string, a: nat, pattern: string, i: nat)
    requires Window(u, t, a) && i + |pattern| <= |u|
    ensures At(u, pattern, i) <==> At(t, pattern, a + i)
  {
    if At(t, pattern, a + i) {
      forall k | 0 <= k < |pattern|
        ensures u[i + k] == pattern[k]
      {
        assert t[a + i + k] == pattern[k];
      }
    }
    if At(u, pattern, i) {
      forall k | 0 <= k < |pattern|
        ensures t[a + i + k] == pattern[k]
      {
        assert u[i + k] == t[a + (i + k)];
      }
    }
  }

  lemma {:induction false} LocalFind(u: string, t: string, a: nat, pattern: string, i: nat)
    requires Window(u, t, a) && i <= |u|
    requires Find(t, pattern, a + i).Some? && Find(t, pattern, a + i).value + |pattern| <= a + |u|
    ensures Find(u, pattern, i) == Some(Find(t, pattern, a + i).value - a)
  {
    hide Find, At, Window;
    var j := Find(t, pattern, a + i).value;
    LocalAt(u, t, a, pattern, j - a);
    var r := Find(u, pattern, i);
    assert r.Some? && r.value <= j - a;
    LocalAt(u, t, a, pattern, r.value);
  }

  lemma {:induction false} LocalQuote(u: string, t: string, a: nat, i: nat)
    requires Window(u, t, a) && i <= |u| && QuoteEnd(t, a + i) + 1 < a + |u|
    ensures QuoteEnd(u, i) == QuoteEnd(t, a + i) - a
    decreases |u| - i
  {
    if i < |u| {
      assert u[i] == t[a + i];
      if t[a + i] != '\'' {
        LocalQuote(u, t, a, i + 1);
      } else if i + 1 < |u| {
        assert u[i + 1] == t[a + (i + 1)];
        if t[a + i + 1] == '\'' {
          LocalQuote(u, t, a, i + 2);
        }
      }
    }
  }

  lemma {:induction false} LocalIdent(u: string, t: string, a: nat, i: nat)
    requires Window(u, t, a) && i < |u|
    ensures IdentEnd(u, i) < |u| && IdentEnd(t, a + i) == a + IdentEnd(u, i)
    decreases |u| - i
  {
    assert u[i] == t[a + i];
    assert !IdentPart(u[|u| - 1]);
    if IdentPart(u[i]) {
      LocalIdent(u, t, a, i + 1);
    }
  }

  lemma {:induction false} LocalTag(u: string, t: string, a: nat, i: nat)
    requires Window(u, t, a) && i < |u| && u[i] == '$'
    ensures t[a + i] == '$'
    ensures TagEnd(t, a + i).None? ==> TagEnd(u, i).None?
    ensures TagEnd(t, a + i).Some? ==> a + i <= TagEnd(t, a + i).value <= a + |u| && TagEnd(u, i) == Some(TagEnd(t, a + i).value - a)
  {
    hide IdentEnd;
    assert u[i + 1] == t[a + (i + 1)];
    LocalIdent(u, t, a, i + 1);
    var e := IdentEnd(u, i + 1);
    assert u[e] == t[a + e];
  }

  lemma {:induction false} SameTag(u: string, t: string, a: nat, i: nat, e: nat)
    requires Window(u, t, a) && i <= e <= |u|
    ensures u[i..e] == t[a + i..a + e]
  {
    forall k | 0 <= k < e - i
      ensures u[i..e][k] == t[a + i..a + e][k]
    {
      assert u[i + k] == t[a + (i + k)];
    }
  }

  lemma {:induction false} LocalStarts(u: string, t: string, a: nat, i: nat)
    requires Window(u, t, a) && i < |u|
    ensures u[i] == t[a + i]
    ensures At(u, "--", i) <==> At(t, "--", a + i)
    ensures At(u, "/*", i) <==> At(t, "/*", a + i)
    ensures At(u, "/*", i) || At(u, "--", i) ==> i + 2 <= |u|
  {
    StartsDiffer(t, a + i);
    hide At;
    if i + 2 <= |u| {
      LocalAt(u, t, a, "--", i);
      LocalAt(u, t, a, "/*", i);
    } else {
      NoRoom(u, i);
      assert t[a + i] == ';';
    }
  }

  lemma {:induction false} NoRoom(u: string, i: nat)
    requires i + 2 > |u|
    ensures !At(u, "--", i) && !At(u, "/*", i)
  {
  }

  lemma {:induction false} LocalComment(u: string, t: string, a: nat, i: nat, pattern: string, from: nat)
    requires Window(u, t, a) && i <= from <= |u|
    requires var j := Find(t, pattern, a + from);
             (if j.None? then |t| else j.value + |pattern|) < a + |u|
    ensures Find(t, pattern, a + from).Some? && Find(u, pattern, from) == Some(Find(t, pattern, a + from).value - a)
  {
    hide Find, At, Window;
    WindowFits(u, t, a);
    LocalFind(u, t, a, pattern, from);
  }

  /** The step at `a + i` of the text ends before the span's semicolon, or is that semicolon. */
  predicate StaysInside(u: string, t: string, a: nat, i: nat) {
    && Window(u, t, a) && i < |u| && a + i < |t|
    && !TokenAt(t, a + i).Unclosed? && (TokenAt(t, a + i).Skip? ==> TokenAt(t, a + i).next < a + |u|)
  }

  predicate SameStep(u: string, t: string, a: nat, i: nat) {
    && i < |u| && a + i < |t|
    && match TokenAt(t, a + i)
       case Unclosed => TokenAt(u, i).Unclosed?
       case Semicolon => TokenAt(u, i).Semicolon?
       case Skip(j) => TokenAt(u, i).Skip? && TokenAt(u, i).next + a == j
  }

  /** A step that stays before the final semicolon is the same step when only the span is scanned. */
  lemma {:induction false} LocalToken(u: string, t: string, a: nat, i: nat)
    requires StaysInside(u, t, a, i)
    ensures SameStep(u, t, a, i)
  {
    hide TokenAt;
    LocalStarts(u, t, a, i);
    hide At, SameStep, StaysInside;
    if At(t, "--", a + i) {
      LocalLineStep(u, t, a, i);
    } else if At(t, "/*", a + i) {
      LocalBlockStep(u, t, a, i);
    } else {
      LocalOtherStep(u, t, a, i);
    }
  }

  lemma {:induction false} LocalLineStep(u: string, t: string, a: nat, i: nat)
    requires StaysInside(u, t, a, i) && At(t, "--", a + i) && At(u, "--", i)
    ensures SameStep(u, t, a, i)
  {
    hide At, Find, TagEnd, QuoteEnd, Window;
    LocalComment(u, t, a, i, "\n", i);
  }

  lemma {:induction false} LocalBlockStep(u: string, t: string, a: nat, i: nat)
    requires StaysInside(u, t, a, i) && At(t, "/*", a + i) && At(u, "/*", i)
    requires !At(t, "--", a + i) && !At(u, "--", i) && i + 2 <= |u|
    ensures SameStep(u, t, a, i)
  {
    hide At, Find, TagEnd, QuoteEnd, Window;
    LocalComment(u, t, a, i, "*/", i + 2);
  }

  lemma {:induction false} LocalOtherStep(u: string, t: string, a: nat, i: nat)
    requires StaysInside(u, t, a, i) && u[i] == t[a + i]
    requires !At(t, "--", a + i) && !At(u, "--", i) && !At(t, "/*", a + i) && !At(u, "/*", i)
    ensures SameStep(u, t, a, i)
  {
    hide At, Find, DollarToken, QuoteEnd, Window;
    if t[a + i] == '\'' {
      LocalQuote(u, t, a, i + 1);
    } else if t[a + i] == '$' {
      LocalDollar(u, t, a, i);
    }
  }

  lemma {:induction false} LocalDollar(u: string, t: string, a: nat, i: nat)
    requires Window(u, t, a) && i < |u| && u[i] == '$' && a + i < |t| && t[a + i] == '$'
    requires DollarToken(t, a + i).Skip? && DollarToken(t, a + i).next < a + |u|
    ensures DollarToken(u, i).Skip? && DollarToken(u, i).next + a == DollarToken(t, a + i).next
  {
    hide At, Find, TagEnd, Window;
    LocalTag(u, t, a, i);
    var e := TagEnd(t, a + i);
    if e.Some? {
      SameTag(u, t, a, i, e.value - a);
      LocalFind(u, t, a, t[a + i..e.value], e.value - a);
    }
  }

  lemma {:induction false} MirrorEnds(u: string, t: string, a: nat, i: nat)
    requires Window(u, t, a) && i < |u|
    requires Ends(t, a + i).Ok? && Ends(t, a + i).value != [] && Ends(t, a + i).value[0] == a + |u|
    ensures Ends(u, i) == Ok([|u|])
    decreases |u| - i
  {
    hide TokenAt, Window;
    WindowFits(u, t, a);
    EndsStep(t, a + i);
    match TokenAt(t, a + i)
    case Unclosed =>
    case Skip(j) =>
      EndsRise(t, j);
      LocalToken(u, t, a, i);
      MirrorEnds(u, t, a, j - a);
    case Semicolon =>
      LocalToken(u, t, a, i);
      PastTheEnd(u);
      assert [|u|] + [] == [|u|];
  }

  lemma {:induction false} WindowFits(u: string, t: string, a: nat)
    requires Window(u, t, a)
    ensures u != [] && a + |u| <= |t|
  {
  }

  lemma {:induction false} PastTheEnd(u: string)
    ensures Ends(u, |u|) == Ok([])
  {
  }

  lemma {:induction false} EndsStep(t: string, i: nat)
    requires i < |t| && Ends(t, i).Ok? && Ends(t, i).value != []
    ensures !TokenAt(t, i).Unclosed?
    ensures TokenAt(t, i).Skip? ==> Ends(t, TokenAt(t, i).next) == Ends(t, i)
    ensures TokenAt(t, i).Semicolon? ==> Ends(t, i).value[0] == i + 1
  {
    hide TokenAt;
  }

  lemma {:induction false} EndsFrom(t: string, i: nat, k: nat)
    requires Ends(t, i).Ok? && k <= |Ends(t, i).value|
    ensures Ends(t, if k == 0 then i else Ends(t, i).value[k - 1]) == Ok(Ends(t, i).value[k..])
    decreases |t| + 1 - i
  {
    hide TokenAt;
    var ends := Ends(t, i).value;
    if k == 0 {
      assert ends[0..] == ends;
    } else {
      match TokenAt(t, i)
      case Unclosed =>
      case Skip(j) => EndsFrom(t, j, k);
      case Semicolon =>
        var rest := Ends(t, i + 1).value;
        EndsFrom(t, i + 1, k - 1);
        assert ends == [i + 1] + rest && ends[k..] == rest[k - 1..];
    }
  }

  /** The span that ends at the `k`th top-level semicolon, split on its own, is one statement. */
  lemma {:induction false} SpanSplitsToItself(t: string, k: nat)
    requires Ends(t, 0).Ok? && k < |Ends(t, 0).value|
    ensures var s := Split(t).value[k];
            Split(TextOf(t, s)) == Ok([Span(0, |TextOf(t, s)|)])
  {
    hide Ends, Reaches;
    var ends := Ends(t, 0).value;
    var a, e := StartOf(ends, k), ends[k];
    EndsRise(t, 0);
    RisingAt(ends, |t|, k);
    EndsByReach(t, 0, e);
    assert e in ends;
    EndsFrom(t, 0, k);
    var u := t[a..e];
    TextBetween(t, a, e);
    assert Window(u, t, a);
    hide Window;
    MirrorEnds(u, t, a, 0);
    OneSpan(u);
  }

  lemma {:induction false} OneSpan(u: string)
    requires Ends(u, 0) == Ok([|u|])
    ensures Split(u) == Ok([Span(0, |u|)])
  {
    hide Ends;
    EmptyIsBlank(u);
    hide Blank;
    assert SpansOf([|u|]) + [] == [Span(0, |u|)];
  }

  ghost predicate EndsStatement(t: string, e: nat) {
    e > 0 && TopLevelSemicolon(t, e - 1)
  }

  /** Every span but a final unterminated one ends at a top-level semicolon, every such semicolon ends a
      span, and a span that ends at one is returned whole when it is split again. */
  lemma {:induction false} StatementsAreStable(t: string, k: nat, e: nat)
    requires Split(t).Ok? && k < |Split(t).value|
    ensures var spans := Split(t).value; var s := spans[k];
            && (EndsStatement(t, s.end) || (k == |spans| - 1 && s.end == |t|))
            && (EndsStatement(t, s.end) ==> Split(TextOf(t, s)) == Ok([Span(0, |TextOf(t, s)|)]))
            && (EndsStatement(t, e) ==> exists l :: 0 <= l < |spans| && spans[l].end == e)
  {
    hide Ends, TopLevelSemicolon, Blank, TextOf;
    SplitFails(t);
    EndsRise(t, 0);
    var ends := Ends(t, 0).value;
    if k < |ends| {
      assert ends[k] in ends;
      SpansEndAtTopLevelSemicolons(t, ends[k]);
      SpanSplitsToItself(t, k);
    } else {
      SpansEndAtTopLevelSemicolons(t, |t|);
      NotBlankMeansMore(t, StartOf(ends, |ends|));
      TailIsNotAnEnd(t, ends);
    }
    SpansEndAtTopLevelSemicolons(t, e);
    if EndsStatement(t, e) {
      var l :| 0 <= l < |ends| && ends[l] == e;
      assert Split(t).value[l].end == e;
    }
  }

  lemma {:induction false} TailIsNotAnEnd(t: string, ends: seq<nat>)
    requires Rising(ends, 0, |t|) && StartOf(ends, |ends|) < |t|
    ensures |t| !in ends
  {
  }
}
