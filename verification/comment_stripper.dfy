/** Removing comments and string literals from a Solidity source before its version line is read. */
module CommentStripper {
  import opened Sequences

  // ---------------------------------------------------------------------------------------
  // The one-pass automaton

  datatype State =
    | InCode
    | AfterSlash
    | InLine
    | InBlock
    | InBlockStar
    | InString(quote: char, escaped: bool)

  predicate IsQuote(c: char) {
    c == '"' || c == '\''
  }

  function FromCode(c: char): (string, State) {
    if c == '/' then ([], AfterSlash)
    else if IsQuote(c) then ([], InString(c, false))
    else ([c], InCode)
  }

  /** What one character adds to the result, and the state after it. */
  function Step(s: State, c: char): (string, State) {
    match s
    case InCode => FromCode(c)
    case AfterSlash =>
      if c == '/' then ([], InLine)
      else if c == '*' then ([' '], InBlock)
      else (['/'] + FromCode(c).0, FromCode(c).1)
    case InLine => if c == '\n' then ([c], InCode) else ([], InLine)
    case InBlock => ([], if c == '*' then InBlockStar else InBlock)
    case InBlockStar => ([], if c == '/' then InCode else if c == '*' then InBlockStar else InBlock)
    case InString(q, escaped) => ([], if c == q && !escaped then InCode else InString(q, c == '\\'))
  }

  function Run(s: State, program: string): string
    decreases |program|
  {
    if program == [] then (if s.AfterSlash? then ['/'] else [])
    else Step(s, program[0]).0 + Run(Step(s, program[0]).1, program[1..])
  }

  function Strip(program: string): string {
    Run(InCode, program)
  }

  // ---------------------------------------------------------------------------------------
  // Searching

  predicate LineStart(p: string, k: nat) {
    k + 1 < |p| && p[k] == '/' && p[k + 1] == '/'
  }

  predicate BlockStart(p: string, k: nat) {
    k + 1 < |p| && p[k] == '/' && p[k + 1] == '*'
  }

  predicate VoidStart(p: string, k: nat) {
    k < |p| && (IsQuote(p[k]) || LineStart(p, k) || BlockStart(p, k))
  }

  predicate BlockEnd(p: string, k: nat) {
    k + 1 < |p| && p[k] == '*' && p[k + 1] == '/'
  }

  predicate StringEnd(p: string, q: char, k: nat) {
    k < |p| && p[k] == q && (k == 0 || p[k - 1] != '\\')
  }

  /** The first start of a comment or string in `p`, or the end of `p`. */
  predicate FirstVoidStart(p: string, i: nat) {
    i <= |p| && (forall k: nat :: k < i ==> !VoidStart(p, k)) && (i == |p| || VoidStart(p, i))
  }

  /** The first end of a block comment in `p`, or the end of `p`. */
  predicate FirstBlockEnd(p: string, e: nat) {
    e <= |p| && (forall k: nat :: k < e ==> !BlockEnd(p, k)) && (e == |p| || BlockEnd(p, e))
  }

  predicate FirstStringEnd(p: string, q: char, e: nat) {
    e <= |p| && (forall k: nat :: k < e ==> !StringEnd(p, q, k)) && (e == |p| || StringEnd(p, q, e))
  }

  lemma SlashBeforeText(p: string)
    requires p == [] || (p[0] != '/' && p[0] != '*')
    ensures Run(AfterSlash, p) == ['/'] + Run(InCode, p)
  {
  }

  lemma NextVoidStart(p: string, i: nat)
    requires i > 0 && FirstVoidStart(p, i)
    ensures FirstVoidStart(p[1..], i - 1)
    ensures !IsQuote(p[0]) && (p[0] == '/' && |p| > 1 ==> p[1] != '/' && p[1] != '*')
  {
    var rest := p[1..];
    assert !VoidStart(p, 0);
    forall k: nat | k < i - 1 ensures !VoidStart(rest, k) {
      var next := k + 1;
      assert !VoidStart(p, next);
    }
    if i < |p| { assert VoidStart(rest, i - 1); }
  }

  lemma RunOneText(p: string)
    requires p != [] && !IsQuote(p[0]) && (p[0] == '/' && |p| > 1 ==> p[1] != '/' && p[1] != '*')
    ensures Run(InCode, p) == [p[0]] + Run(InCode, p[1..])
  {
    if p[0] == '/' { SlashBeforeText(p[1..]); }
  }

  /** Text before the first start is copied. */
  lemma {:induction false} RunText(p: string, i: nat)
    requires FirstVoidStart(p, i)
    ensures Run(InCode, p) == p[..i] + Run(InCode, p[i..])
    decreases i
  {
    if i == 0 {
      assert p[0..] == p;
    } else {
      NextVoidStart(p, i);
      RunOneText(p);
      RunText(p[1..], i - 1);
    }
  }

  lemma {:induction false} RunLine(p: string, e: nat)
    requires e <= |p| && (forall k: nat :: k < e ==> p[k] != '\n') && (e == |p| || p[e] == '\n')
    ensures Run(InLine, p) == Run(InCode, p[e..])
  {
    if e == 0 {
    } else {
      RunLine(p[1..], e - 1);
      assert p[1..][e - 1..] == p[e..];
    }
  }

  lemma {:induction false} RunBlock(s: State, p: string, e: nat)
    requires FirstBlockEnd(p, e) && (s.InBlock? || (s.InBlockStar? && (p != [] ==> p[0] != '/')))
    ensures Run(s, p) == if e == |p| then [] else Run(InCode, p[e + 2..])
    decreases e
  {
    if e > 0 {
      var rest := p[1..];
      assert !BlockEnd(p, 0);
      forall k: nat | k < e - 1 ensures !BlockEnd(rest, k) {
        var next := k + 1;
        assert !BlockEnd(p, next);
      }
      if e < |p| { assert BlockEnd(rest, e - 1); }
      RunBlock(Step(s, p[0]).1, rest, e - 1);
      if e < |p| { assert rest[e - 1 + 2..] == p[e + 2..]; }
    } else if p != [] {
      assert p[1..][1..] == p[2..];
    }
  }

  lemma {:induction false} RunString(q: char, p: string, i: nat, e: nat)
    requires i <= e <= |p| && (e < |p| ==> StringEnd(p, q, e))
    requires forall k: nat :: i <= k < e ==> !StringEnd(p, q, k)
    ensures var s := InString(q, i > 0 && p[i - 1] == '\\');
      Run(s, p[i..]) == if e == |p| then [] else Run(InCode, p[e + 1..])
    decreases e - i
  {
    if i < e {
      assert !StringEnd(p, q, i);
      RunString(q, p, i + 1, e);
      assert p[i..][1..] == p[i + 1..];
    } else if i < |p| {
      assert p[i..][1..] == p[i + 1..];
    }
  }

  // ---------------------------------------------------------------------------------------
  // The loop

  method SearchVoidStart(p: string) returns (i: nat)
    ensures FirstVoidStart(p, i)
  {
    i := 0;
    while i < |p| && !VoidStart(p, i)
      invariant i <= |p| && forall k: nat :: k < i ==> !VoidStart(p, k)
    {
      i := i + 1;
    }
  }

  method FindNewline(p: string, from: nat) returns (e: nat)
    requires from <= |p|
    ensures from <= e <= |p| && (forall k: nat :: from <= k < e ==> p[k] != '\n') && (e == |p| || p[e] == '\n')
  {
    e := from;
    while e < |p| && p[e] != '\n'
      invariant from <= e <= |p| && forall k: nat :: from <= k < e ==> p[k] != '\n'
    {
      e := e + 1;
    }
  }

  method FindBlockEnd(p: string) returns (e: nat)
    ensures FirstBlockEnd(p, e)
  {
    e := 0;
    while e < |p| && !BlockEnd(p, e)
      invariant e <= |p| && forall k: nat :: k < e ==> !BlockEnd(p, k)
    {
      e := e + 1;
    }
  }

  method SearchStringEnd(p: string, q: char) returns (e: nat)
    ensures FirstStringEnd(p, q, e)
  {
    e := 0;
    while e < |p| && !StringEnd(p, q, e)
      invariant e <= |p| && forall k: nat :: k < e ==> !StringEnd(p, q, k)
    {
      e := e + 1;
    }
  }

  method SkipLine(program: string, i: nat) returns (rest: string)
    requires LineStart(program, i)
    ensures Run(InCode, program[i..]) == Run(InCode, rest) && |rest| < |program|
  {
    var e := FindNewline(program, i + 2);
    AtLine(program, i, e);
    rest := program[e..];
  }

  method SkipBlock(program: string, i: nat) returns (rest: string)
    requires BlockStart(program, i)
    ensures Run(InCode, program[i..]) == [' '] + Run(InCode, rest) && |rest| < |program|
  {
    var e := FindBlockEnd(program[i + 2..]);
    AtBlock(program, i, e);
    rest := if e == |program[i + 2..]| then [] else program[i + 2 + e + 2..];
  }

  method SkipString(program: string, i: nat) returns (rest: string, closed: bool)
    requires i < |program| && IsQuote(program[i])
    ensures Run(InCode, program[i..]) == (if closed then Run(InCode, rest) else []) && |rest| < |program|
  {
    var e := SearchStringEnd(program[i + 1..], program[i]);
    AtString(program, i, e);
    closed := e < |program[i + 1..]|;
    rest := if closed then program[i + 1 + e + 1..] else [];
  }

  /** The loop over the first remaining comment or string is the automaton. */
  method RemoveCommentsStrings(source: string) returns (result: string)
    ensures result == Strip(source)
  {
    result := [];
    var program := source;
    while true
      invariant Rest(result, program, source)
      decreases |program|
    {
      var i := SearchVoidStart(program);
      TextCopied(result, program, source, i);
      if i == |program| {
        result := result + program;
        break;
      }
      result := result + program[..i];
      if LineStart(program, i) {
        program := SkipLine(program, i);
      } else if BlockStart(program, i) {
        ghost var so := result;
        program := SkipBlock(program, i);
        result := result + [' '];
        Associates(so, [' '], Run(InCode, program));
      } else {
        var closed;
        program, closed := SkipString(program, i);
        if !closed {
          break;
        }
      }
    }
  }

  ghost predicate Rest(result: string, program: string, source: string) {
    result + Run(InCode, program) == Strip(source)
  }

  lemma TextCopied(result: string, program: string, source: string, i: nat)
    requires Rest(result, program, source) && FirstVoidStart(program, i)
    ensures Rest(result + program[..i], program[i..], source)
    ensures i == |program| ==> result + program == Strip(source)
  {
    RunText(program, i);
    Associates(result, program[..i], Run(InCode, program[i..]));
    if i == |program| { assert program[..i] == program; }
  }

  lemma AtLine(p: string, i: nat, e: nat)
    requires LineStart(p, i) && i + 2 <= e <= |p|
    requires (forall k: nat :: i + 2 <= k < e ==> p[k] != '\n') && (e == |p| || p[e] == '\n')
    ensures Run(InCode, p[i..]) == Run(InCode, p[e..])
  {
    var body := p[i + 2..];
    assert p[i..] == ['/', '/'] + body;
    assert p[i..][1..] == ['/'] + body;
    assert (['/'] + body)[1..] == body;
    RunLine(body, e - (i + 2));
    assert body[e - (i + 2)..] == p[e..];
  }

  lemma RunOpening(q: string)
    requires |q| >= 2 && q[0] == '/' && q[1..][0] == '*'
    ensures Run(InCode, q) == [' '] + Run(InBlock, q[1..][1..])
  {
    assert Run(InCode, q) == Run(AfterSlash, q[1..]);
  }

  lemma AtBlock(p: string, i: nat, e: nat)
    requires BlockStart(p, i) && FirstBlockEnd(p[i + 2..], e)
    ensures Run(InCode, p[i..]) == [' '] + (if e == |p| - (i + 2) then [] else Run(InCode, p[i + 2 + e + 2..]))
  {
    var body := p[i + 2..];
    var q := p[i..];
    assert q[0] == '/' && q[1..][0] == '*' && q[1..][1..] == body;
    RunOpening(q);
    RunBlock(InBlock, body, e);
    if e < |body| { assert body[e + 2..] == p[i + 2 + e + 2..]; }
  }

  lemma AtString(p: string, i: nat, e: nat)
    requires i < |p| && IsQuote(p[i]) && FirstStringEnd(p[i + 1..], p[i], e)
    ensures Run(InCode, p[i..]) == if e == |p| - (i + 1) then [] else Run(InCode, p[i + 1 + e + 1..])
  {
    var body := p[i + 1..];
    assert p[i..][1..] == body;
    RunString(p[i], body, 0, e);
    assert body[0..] == body;
    if e < |body| { assert body[e + 1..] == p[i + 1 + e + 1..]; }
  }

  // ---------------------------------------------------------------------------------------
  // What every result is like

  lemma {:induction false} RunShrinks(s: State, p: string)
    ensures |Run(s, p)| <= |p| + (if s.AfterSlash? then 1 else 0)
    ensures forall k :: 0 <= k < |Run(s, p)| ==> !IsQuote(Run(s, p)[k])
    decreases |p|
  {
    if p == [] {
    } else {
      RunShrinks(Step(s, p[0]).1, p[1..]);
    }
  }

  /** The result is no longer than the program and has no quote. */
  lemma StripShrinks(p: string)
    ensures |Strip(p)| <= |p|
    ensures forall k :: 0 <= k < |Strip(p)| ==> !IsQuote(Strip(p)[k])
  {
    RunShrinks(InCode, p);
  }

  /** A first comment or string that is never closed ends the result: with a space if it is a block comment. */
  lemma UnclosedLosesRest(p: string, i: nat)
    requires FirstVoidStart(p, i) && i < |p|
    requires
      || (LineStart(p, i) && forall k: nat :: i + 2 <= k < |p| ==> p[k] != '\n')
      || (BlockStart(p, i) && FirstBlockEnd(p[i + 2..], |p| - i - 2))
      || (IsQuote(p[i]) && FirstStringEnd(p[i + 1..], p[i], |p| - i - 1))
    ensures Strip(p) == p[..i] + if BlockStart(p, i) then " " else ""
  {
    RunText(p, i);
    if LineStart(p, i) {
      AtLine(p, i, |p|);
    } else if BlockStart(p, i) {
      AtBlock(p, i, |p| - i - 2);
    } else {
      AtString(p, i, |p| - i - 1);
    }
  }

  // ---------------------------------------------------------------------------------------
  // Solidity's own lexical structure

  datatype Piece =
    | Char(c: char)
    | LineComment(body: string)
    | BlockComment(body: string)
    | Literal(quote: char, content: string)

  /** A literal's content in Solidity: a backslash escapes the next character; no bare quote. */
  predicate IsContent(content: string, q: char) {
    if content == [] then true
    else if content[0] == '\\' then |content| >= 2 && IsContent(content[2..], q)
    else content[0] != q && IsContent(content[1..], q)
  }

  predicate EndsInBackslash(content: string) {
    content != [] && content[|content| - 1] == '\\'
  }

  function Text(p: Piece): string {
    match p
    case Char(c) => [c]
    case LineComment(body) => ['/', '/'] + body
    case BlockComment(body) => ['/', '*'] + body + ['*', '/']
    case Literal(q, content) => [q] + content + [q]
  }

  function Render(pieces: seq<Piece>): string {
    if pieces == [] then [] else Text(pieces[0]) + Render(pieces[1..])
  }

  /** The pieces that survive: characters, and one space for each block comment. */
  function Visible(pieces: seq<Piece>): string {
    if pieces == [] then []
    else (match pieces[0]
          case Char(c) => [c]
          case BlockComment(_) => [' ']
          case _ => [])
         + Visible(pieces[1..])
  }

  /** `p` is one piece, and what follows does not change how it is read. */
  predicate IsPiece(p: Piece, rest: seq<Piece>) {
    match p
    case Char(c) =>
      !IsQuote(c) && (c == '/' ==> rest == [] || rest[0].Literal? || (rest[0].Char? && rest[0].c != '/' && rest[0].c != '*'))
    case LineComment(body) => (forall k: nat :: k < |body| ==> body[k] != '\n') && (rest == [] || rest[0] == Char('\n'))
    case BlockComment(body) => forall k: nat :: k < |body| ==> !BlockEnd(body + ['*', '/'], k)
    case Literal(q, content) => IsQuote(q) && IsContent(content, q)
  }

  predicate IsProgram(pieces: seq<Piece>) {
    pieces != [] ==> IsPiece(pieces[0], pieces[1..]) && IsProgram(pieces[1..])
  }

  predicate NoTrailingBackslash(pieces: seq<Piece>) {
    forall k :: 0 <= k < |pieces| && pieces[k].Literal? ==> !EndsInBackslash(pieces[k].content)
  }

  // ---------------------------------------------------------------------------------------
  // Literals

  function After(s: State, p: string): State
    decreases |p|
  {
    if p == [] then s else After(Step(s, p[0]).1, p[1..])
  }

  lemma RunEscape(c: char, q: char, escaped: bool, tail: string)
    requires IsQuote(q)
    ensures Run(InString(q, escaped), ['\\', c] + tail) == Run(InString(q, c == '\\'), tail)
    ensures After(InString(q, escaped), ['\\', c] + tail) == After(InString(q, c == '\\'), tail)
  {
    var all, next := ['\\', c] + tail, [c] + tail;
    assert all[1..] == next && next[1..] == tail;
    assert Run(InString(q, true), next) == Run(InString(q, c == '\\'), tail);
  }

  lemma RunPlain(c: char, q: char, escaped: bool, tail: string)
    requires IsQuote(q) && c != q && c != '\\'
    ensures Run(InString(q, escaped), [c] + tail) == Run(InString(q, false), tail)
    ensures After(InString(q, escaped), [c] + tail) == After(InString(q, false), tail)
  {
    assert ([c] + tail)[1..] == tail;
  }

  lemma {:induction false} RunContent(content: string, q: char, escaped: bool, tail: string)
    requires IsQuote(q) && IsContent(content, q)
    ensures var s := InString(q, if content == [] then escaped else EndsInBackslash(content));
      Run(InString(q, escaped), content + tail) == Run(s, tail) && After(InString(q, escaped), content) == s
    decreases |content|
  {
    if content == [] {
      assert content + tail == tail;
    } else if content[0] == '\\' {
      var rest := content[2..];
      RunEscape(content[1], q, escaped, rest + tail);
      RunEscape(content[1], q, escaped, rest);
      assert content + tail == ['\\', content[1]] + (rest + tail);
      assert content == ['\\', content[1]] + rest;
      RunContent(rest, q, content[1] == '\\', tail);
    } else {
      var rest := content[1..];
      RunPlain(content[0], q, escaped, rest + tail);
      RunPlain(content[0], q, escaped, rest);
      assert content + tail == [content[0]] + (rest + tail);
      assert content == [content[0]] + rest;
      RunContent(rest, q, false, tail);
    }
  }

  lemma RunLiteral(content: string, q: char, tail: string)
    requires IsQuote(q) && IsContent(content, q)
    ensures Run(InCode, Text(Literal(q, content)) + tail)
      == Run(if EndsInBackslash(content) then InString(q, false) else InCode, tail)
  {
    var all := Text(Literal(q, content)) + tail;
    assert all[1..] == content + ([q] + tail);
    RunContent(content, q, false, [q] + tail);
    assert ([q] + tail)[1..] == tail;
  }

  lemma {:induction false} AfterAppend(s: State, p: string, c: char)
    ensures After(s, p + [c]) == Step(After(s, p), c).1
    decreases |p|
  {
    if p == [] {
      assert (p + [c])[1..] == [];
    } else {
      assert (p + [c])[1..] == p[1..] + [c];
      AfterAppend(Step(s, p[0]).1, p[1..], c);
    }
  }

  /** A literal is closed by its own closing quote exactly when its content does not end in a backslash. */
  lemma LiteralClosesExactly(content: string, q: char)
    requires IsQuote(q) && IsContent(content, q)
    ensures After(InCode, Text(Literal(q, content))) == InCode <==> !EndsInBackslash(content)
  {
    RunContent(content, q, false, []);
    AfterAppend(InString(q, false), content, q);
    assert Text(Literal(q, content))[1..] == content + [q];
  }

  // ---------------------------------------------------------------------------------------
  // Stripping a Solidity program

  /** Of a Solidity program the stripper leaves the characters outside of comments and literals. */
  lemma {:induction false} StripRendered(pieces: seq<Piece>)
    requires IsProgram(pieces) && NoTrailingBackslash(pieces)
    ensures Strip(Render(pieces)) == Visible(pieces)
  {
    if pieces == [] {
    } else {
      var p, rest := pieces[0], pieces[1..];
      assert NoTrailingBackslash(rest) by {
        forall k | 0 <= k < |rest| && rest[k].Literal? ensures !EndsInBackslash(rest[k].content) {
          assert rest[k] == pieces[k + 1];
        }
      }
      StripRendered(rest);
      match p
      case Char(c) => RunChar(c, rest);
      case LineComment(body) => RunLineComment(body, rest);
      case BlockComment(body) => RunBlockComment(body, rest);
      case Literal(q, content) => RunLiteral(content, q, Render(rest));
    }
  }

  lemma RunChar(c: char, rest: seq<Piece>)
    requires IsPiece(Char(c), rest) && IsProgram(rest)
    ensures Run(InCode, [c] + Render(rest)) == [c] + Run(InCode, Render(rest))
  {
    assert ([c] + Render(rest))[1..] == Render(rest);
    if c == '/' { SlashBeforeText(Render(rest)); }
  }

  lemma RunLineComment(body: string, rest: seq<Piece>)
    requires IsPiece(LineComment(body), rest) && IsProgram(rest)
    ensures Run(InCode, Text(LineComment(body)) + Render(rest)) == Run(InCode, Render(rest))
  {
    var p := Text(LineComment(body)) + Render(rest);
    assert LineStart(p, 0) && p[|body| + 2..] == Render(rest) && p[0..] == p;
    forall k: nat | 2 <= k < |body| + 2 ensures p[k] != '\n' { assert p[k] == body[k - 2]; }
    AtLine(p, 0, |body| + 2);
  }

  lemma RunBlockComment(body: string, rest: seq<Piece>)
    requires IsPiece(BlockComment(body), rest)
    ensures Run(InCode, Text(BlockComment(body)) + Render(rest)) == [' '] + Run(InCode, Render(rest))
  {
    var p := Text(BlockComment(body)) + Render(rest);
    BlockText(body, Render(rest));
    AtBlock(p, 0, |body|);
  }

  lemma BlockText(body: string, tail: string)
    requires forall k: nat :: k < |body| ==> !BlockEnd(body + ['*', '/'], k)
    ensures var p := Text(BlockComment(body)) + tail;
      BlockStart(p, 0) && p[0..] == p && FirstBlockEnd(p[2..], |body|) && |body| < |p[2..]| && p[2 + |body| + 2..] == tail
  {
    var p := Text(BlockComment(body)) + tail;
    var closed := body + ['*', '/'];
    assert p[2..] == closed + tail;
    forall k: nat | k < |body| ensures !BlockEnd(p[2..], k) { assert !BlockEnd(closed, k); }
    assert BlockEnd(p[2..], |body|);
  }

  /** An escaped backslash before the closing quote: the stripper loses the code after the literal. */
  lemma EscapedBackslash()
    ensures exists pieces :: IsProgram(pieces) && Strip(Render(pieces)) != Visible(pieces)
  {
    var content, tail := ['\\', '\\'], [Char('x')];
    var pieces := [Literal('"', content)] + tail;
    assert content[2..] == [] && IsContent(content, '"');
    assert pieces[1..] == tail && tail[1..] == [];
    assert Render(tail) == ['x'] + [] && Visible(tail) == ['x'] + [];
    RunLiteral(content, '"', Render(tail));
    assert Render(tail)[1..] == [];
    assert IsProgram(tail) && IsProgram(pieces);
    assert Strip(Render(pieces)) == [] && Visible(pieces) == ['x'];
  }

  // ---------------------------------------------------------------------------------------
  // Whether the result is free of comments

  predicate HasCommentStart(v: string) {
    exists k: nat :: k < |v| && (LineStart(v, k) || BlockStart(v, k))
  }

  predicate OpensAfterSlash(v: string) {
    v != [] && (v[0] == '/' || v[0] == '*')
  }

  /** After some literals comes a slash or a star. */
  predicate JoinedTo(pieces: seq<Piece>) {
    pieces != [] && (if pieces[0].Literal? then JoinedTo(pieces[1..]) else pieces[0] == Char('/') || pieces[0] == Char('*'))
  }

  /** Somewhere a slash, then only literals, then a slash or a star. */
  predicate SlashesMeet(pieces: seq<Piece>) {
    pieces != [] && ((pieces[0] == Char('/') && JoinedTo(pieces[1..])) || SlashesMeet(pieces[1..]))
  }

  lemma {:induction false} JoinedIsVisible(pieces: seq<Piece>)
    requires IsProgram(pieces)
    ensures JoinedTo(pieces) <==> OpensAfterSlash(Visible(pieces))
  {
    if pieces == [] {
    } else {
      JoinedIsVisible(pieces[1..]);
    }
  }

  lemma StartInTail(c: char, v: string)
    ensures HasCommentStart([c] + v) <==> (c == '/' && OpensAfterSlash(v)) || HasCommentStart(v)
  {
    var w := [c] + v;
    if k: nat :| k < |w| && (LineStart(w, k) || BlockStart(w, k)) {
      if k > 0 {
        var j: nat := k - 1;
        assert LineStart(v, j) || BlockStart(v, j);
      }
    }
    if k: nat :| k < |v| && (LineStart(v, k) || BlockStart(v, k)) {
      var next := k + 1;
      assert LineStart(w, next) || BlockStart(w, next);
    }
    if c == '/' && OpensAfterSlash(v) { assert LineStart(w, 0) || BlockStart(w, 0); }
  }

  lemma {:induction false} VisibleStarts(pieces: seq<Piece>)
    requires IsProgram(pieces)
    ensures HasCommentStart(Visible(pieces)) <==> SlashesMeet(pieces)
  {
    if pieces == [] {
    } else {
      var rest := pieces[1..];
      VisibleStarts(rest);
      JoinedIsVisible(rest);
      match pieces[0]
      case Char(c) => StartInTail(c, Visible(rest));
      case BlockComment(_) => StartInTail(' ', Visible(rest));
      case _ => assert Visible(pieces) == Visible(rest);
    }
  }

  /** The result contains the start of a comment exactly when removing literals brings a slash next to one. */
  lemma ResultHasNoComments(pieces: seq<Piece>)
    requires IsProgram(pieces) && NoTrailingBackslash(pieces)
    ensures HasCommentStart(Strip(Render(pieces))) <==> SlashesMeet(pieces)
  {
    StripRendered(pieces);
    VisibleStarts(pieces);
  }
}
