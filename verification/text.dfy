/** Splitting, joining and decimal numbers. */
module Text {
  import opened Options

  /** `s` cut at every `sep`; there is always at least one part. */
  function Split(s: string, sep: char): (parts: seq<string>)
    ensures |parts| >= 1
  {
    if s == [] then [[]]
    else
      var parts := Split(s[1..], sep);
      if s[0] == sep then [[]] + parts else [[s[0]] + parts[0]] + parts[1..]
  }

  function Join(parts: seq<string>, sep: char): string
    requires |parts| >= 1
  {
    if |parts| == 1 then parts[0] else parts[0] + [sep] + Join(parts[1..], sep)
  }

  predicate Free(parts: seq<string>, sep: char) {
    forall k :: 0 <= k < |parts| ==> sep !in parts[k]
  }

  lemma {:induction false} SplitOne(s: string, sep: char)
    requires sep !in s
    ensures Split(s, sep) == [s]
  {
    if s == [] {
    } else {
      SplitOne(s[1..], sep);
      assert s == [s[0]] + s[1..];
    }
  }

  lemma {:induction false} SplitFirst(s: string, sep: char, rest: string)
    requires sep !in s
    ensures Split(s + [sep] + rest, sep) == [s] + Split(rest, sep)
  {
    var all := s + [sep] + rest;
    if s == [] {
      assert all[1..] == rest;
    } else {
      assert all[0] == s[0] && all[1..] == s[1..] + [sep] + rest;
      SplitFirst(s[1..], sep, rest);
      var parts := Split(all[1..], sep);
      assert [s[0]] + parts[0] == s && parts[1..] == Split(rest, sep);
    }
  }

  lemma {:induction false} SplitJoin(parts: seq<string>, sep: char)
    requires |parts| >= 1 && Free(parts, sep)
    ensures Split(Join(parts, sep), sep) == parts
  {
    if |parts| == 1 {
      SplitOne(parts[0], sep);
    } else {
      SplitJoin(parts[1..], sep);
      SplitFirst(parts[0], sep, Join(parts[1..], sep));
    }
  }

  function Digit(d: nat): char
    requires d < 10
  {
    '0' + d as char
  }

  function Digits(n: nat): string {
    if n < 10 then [Digit(n)] else Digits(n / 10) + [Digit(n % 10)]
  }

  function Decimal(n: int): string {
    if n < 0 then ['-'] + Digits(-n) else Digits(n)
  }

  function ParseDigits(s: string): Option<nat> {
    if s == [] || !('0' <= s[|s| - 1] <= '9') then None
    else
      var last: nat := s[|s| - 1] as int - '0' as int;
      if |s| == 1 then Some(last)
      else
        var high := ParseDigits(s[..|s| - 1]);
        if high.None? then None else Some(10 * high.value + last)
  }

  /** An optional minus sign and digits; anything else is an error. */
  function ParseInt(s: string): Option<int> {
    if s != [] && s[0] == '-' then
      match ParseDigits(s[1..])
      case None => None
      case Some(magnitude) => Some(0 - magnitude)
    else ParseDigits(s)
  }

  lemma {:induction false} ParseOfDigits(n: nat)
    ensures Digits(n) != [] && '0' <= Digits(n)[0] <= '9' && ParseDigits(Digits(n)) == Some(n)
    ensures forall c :: c in Digits(n) ==> '0' <= c <= '9'
  {
    if n < 10 {
    } else {
      ParseOfDigits(n / 10);
      assert Digits(n)[..|Digits(n)| - 1] == Digits(n / 10);
    }
  }

  /** An optional minus sign, and then one digit or more. */
  predicate IsNumeral(s: string) {
    AllDigits(if s != [] && s[0] == '-' then s[1..] else s)
  }

  predicate AllDigits(s: string) {
    s != [] && forall k :: 0 <= k < |s| ==> '0' <= s[k] <= '9'
  }

  lemma {:induction false} DigitsParse(s: string)
    ensures ParseDigits(s).Some? <==> AllDigits(s)
  {
    if s == [] {
    } else {
      var front := s[..|s| - 1];
      DigitsParse(front);
      assert s == front + [s[|s| - 1]];
      if front != [] && !(forall k :: 0 <= k < |front| ==> '0' <= front[k] <= '9') {
        var k :| 0 <= k < |front| && !('0' <= front[k] <= '9');
        assert s[k] == front[k];
      }
    }
  }

  /** Nothing else is a number. */
  lemma ParsesExactly(s: string)
    ensures ParseInt(s).Some? <==> IsNumeral(s)
  {
    var digits := if s != [] && s[0] == '-' then s[1..] else s;
    DigitsParse(digits);
    assert ParseInt(s).Some? <==> ParseDigits(digits).Some?;
  }

  lemma ParseOfDecimal(n: int)
    ensures ParseInt(Decimal(n)) == Some(n) && Decimal(n) != []
    ensures ':' !in Decimal(n) && ';' !in Decimal(n)
  {
    ParseOfDigits(if n < 0 then -n else n);
  }
}
