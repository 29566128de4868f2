/** The parts of Go's strings and strconv packages the agent's parsing rests on, for ASCII letters and digits. */
module GoStrings {
  import opened Common

  function LowerChar(c: char): char {
    if 'A' <= c <= 'Z' then c - 'A' + 'a' else c
  }

  function ToLower(s: string): (t: string)
    ensures |t| == |s| && forall i :: 0 <= i < |s| ==> t[i] == LowerChar(s[i])
  {
    seq(|s|, i requires 0 <= i < |s| => LowerChar(s[i]))
  }

  /** ToLower moves the capital letters to the small ones, 32 places up, and nothing else. */
  lemma {:induction false} LowersExactly(s: string, i: nat)
    requires i < |s|
    ensures ToLower(s)[i] as int == s[i] as int + (if 65 <= s[i] as int <= 90 then 32 else 0)
  {
  }

  /** unicode.IsSpace. */
  predicate IsSpace(c: char) {
    var n := c as int;
    || n == 0x20 || 0x09 <= n <= 0x0D || n == 0x85 || n == 0xA0 || n == 0x1680 || 0x2000 <= n <= 0x200A
    || n == 0x2028 || n == 0x2029 || n == 0x202F || n == 0x205F || n == 0x3000
  }

  /** The white space of ASCII, then that of the rest of Unicode. */
  lemma {:induction false} SpacesAre(c: char)
    ensures IsSpace(c) <==>
      || c in {'\t', '\n', '\U{0B}', '\U{0C}', '\r', ' '}
      || c as int in {133, 160, 5760, 8232, 8233, 8239, 8287, 12288}
      || c as int in {8192, 8193, 8194, 8195, 8196, 8197, 8198, 8199, 8200, 8201, 8202}
  {
  }

  function TrimSpaceLeft(s: string): (t: string)
    ensures |t| <= |s| && (t != "" ==> !IsSpace(t[0]))
  {
    if s != "" && IsSpace(s[0]) then TrimSpaceLeft(s[1..]) else s
  }

  function TrimSpaceRight(s: string): (t: string)
    ensures t <= s && (t != "" ==> !IsSpace(t[|t| - 1]))
  {
    if s != "" && IsSpace(s[|s| - 1]) then TrimSpaceRight(s[..|s| - 1]) else s
  }

  function TrimSpace(s: string): (t: string)
    ensures t != "" ==> !IsSpace(t[0]) && !IsSpace(t[|t| - 1])
  {
    TrimSpaceRight(TrimSpaceLeft(s))
  }

  /** strings.Fields: the maximal runs of characters that are not white space. */
  function Fields(s: string): seq<string> {
    if s == "" then []
    else
      var k := |s| - 1;
      var front := Fields(s[..k]);
      if IsSpace(s[k]) then front
      else if k == 0 || IsSpace(s[k - 1]) || front == [] then front + [[s[k]]]
      else front[|front| - 1 := front[|front| - 1] + [s[k]]]
  }

  function FieldCount(s: string): nat {
    |Fields(s)|
  }

  /** The laws that determine Fields: nothing in white space, one field in a word, and spaces separate. */
  lemma {:induction false} FieldsOfSpace(s: string)
    requires forall i :: 0 <= i < |s| ==> IsSpace(s[i])
    ensures Fields(s) == []
    decreases |s|
  {
    if s != "" {
      FieldsOfSpace(s[..|s| - 1]);
    }
  }

  lemma {:induction false} FieldsOfWord(s: string)
    requires s != "" && forall i :: 0 <= i < |s| ==> !IsSpace(s[i])
    ensures Fields(s) == [s]
    decreases |s|
  {
    var k := |s| - 1;
    assert s[..k] + [s[k]] == s;
    if k > 0 {
      FieldsOfWord(s[..k]);
    }
  }

  /** What one more character does to the fields, if it follows `last`. */
  function WithChar(fields: seq<string>, last: char, x: char): seq<string> {
    if IsSpace(x) then fields
    else if IsSpace(last) || fields == [] then fields + [[x]]
    else fields[|fields| - 1 := fields[|fields| - 1] + [x]]
  }

  /** `last` is the character before `x`, or any white space if there is none. */
  lemma {:induction false} FieldsNext(front: string, last: char, x: char, whole: string)
    requires whole == front + [x]
    requires if front == "" then IsSpace(last) else last == front[|front| - 1]
    ensures Fields(whole) == WithChar(Fields(front), last, x)
  {
    assert whole[..|whole| - 1] == front && whole[|whole| - 1] == x;
    if front != "" {
      assert whole[|whole| - 2] == last;
    }
  }

  lemma {:induction false} FieldsConcat(a: string, c: char, b: string)
    requires IsSpace(c)
    ensures Fields(a + [c] + b) == Fields(a) + Fields(b)
    decreases |b|
  {
    if b == "" {
      FieldsNext(a, if a == "" then c else a[|a| - 1], c, a + [c]);
      assert a + [c] + b == a + [c];
    } else {
      var k := |b| - 1;
      FieldsConcat(a, c, b[..k]);
      ConcatNext(a, c, b[..k], b[k], b, a + [c] + b);
    }
  }

  lemma {:induction false} ConcatNext(a: string, c: char, before: string, x: char, b: string, whole: string)
    requires IsSpace(c) && b == before + [x] && whole == a + [c] + b
    requires Fields(a + [c] + before) == Fields(a) + Fields(before)
    ensures Fields(whole) == Fields(a) + Fields(b)
  {
    var last := if before == "" then c else before[|before| - 1];
    var front := a + [c] + before;
    assert whole == front + [x] && front[|front| - 1] == last;
    FieldsNext(front, last, x, whole);
    FieldsNext(before, last, x, b);
    if !IsSpace(last) {
      NotEmptyAfterWord(before);
    }
    WithCharAfter(Fields(a), Fields(before), last, x);
  }

  lemma {:induction false} WithCharAfter(f: seq<string>, g: seq<string>, last: char, x: char)
    requires IsSpace(last) || g != []
    ensures WithChar(f + g, last, x) == f + WithChar(g, last, x)
  {
    assert f + g + [[x]] == f + (g + [[x]]);
    if g != [] {
      assert (f + g)[|f + g| - 1 := (f + g)[|f + g| - 1] + [x]] == f + g[|g| - 1 := g[|g| - 1] + [x]];
    }
  }

  lemma {:induction false} NotEmptyAfterWord(s: string)
    requires s != "" && !IsSpace(s[|s| - 1])
    ensures Fields(s) != []
  {
  }

  lemma {:induction false} FieldsTrimmedLeft(s: string)
    ensures Fields(TrimSpaceLeft(s)) == Fields(s)
    decreases |s|
  {
    if s != "" && IsSpace(s[0]) {
      FieldsTrimmedLeft(s[1..]);
      FieldsConcat("", s[0], s[1..]);
      assert "" + [s[0]] + s[1..] == s;
    }
  }

  lemma {:induction false} FieldsTrimmedRight(s: string)
    ensures Fields(TrimSpaceRight(s)) == Fields(s)
    decreases |s|
  {
    if s != "" && IsSpace(s[|s| - 1]) {
      FieldsTrimmedRight(s[..|s| - 1]);
    }
  }

  lemma {:induction false} FieldsTrimmed(s: string)
    ensures Fields(TrimSpace(s)) == Fields(s)
  {
    FieldsTrimmedLeft(s);
    FieldsTrimmedRight(TrimSpaceLeft(s));
  }

  /** White space goes from both ends, and nothing else does. */
  lemma {:induction false} TrimsExactly(a: string, s: string, b: string)
    requires forall i :: 0 <= i < |a| ==> IsSpace(a[i])
    requires forall i :: 0 <= i < |b| ==> IsSpace(b[i])
    requires s != "" && !IsSpace(s[0]) && !IsSpace(s[|s| - 1])
    ensures TrimSpace(a + s + b) == s
    decreases |a| + |b|
  {
    var all := a + s + b;
    if a != "" {
      assert all[1..] == a[1..] + s + b && all[0] == a[0];
      TrimsExactly(a[1..], s, b);
    } else if b != "" {
      var k := |b| - 1;
      assert all[..|all| - 1] == a + s + b[..k] && all[|all| - 1] == b[k];
      assert all[0] == s[0] && (a + s + b[..k])[0] == s[0];
      TrimsExactly(a, s, b[..k]);
    } else {
      assert all == s;
    }
  }

  lemma {:induction false} TrimTwice(s: string)
    ensures TrimSpace(TrimSpace(s)) == TrimSpace(s)
  {
    var t := TrimSpace(s);
    if t != "" {
      TrimsExactly("", t, "");
      assert "" + t + "" == t;
    }
  }

  lemma {:induction false} TrimsToNothing(a: string)
    requires forall i :: 0 <= i < |a| ==> IsSpace(a[i])
    ensures TrimSpace(a) == ""
    decreases |a|
  {
    if a != "" {
      TrimsToNothing(a[1..]);
    }
  }

  predicate AllDigits(s: string) {
    s != "" && forall i :: 0 <= i < |s| ==> '0' <= s[i] <= '9'
  }

  function DigitsValue(s: string): (n: int)
    requires forall i :: 0 <= i < |s| ==> '0' <= s[i] <= '9'
    ensures n >= 0
  {
    if s == "" then 0 else DigitsValue(s[..|s| - 1]) * 10 + (s[|s| - 1] - '0') as int
  }

  /** The decimal digits of a number. */
  function Decimal(n: nat): (s: string)
    ensures AllDigits(s)
  {
    var digit := ['0' + (n % 10) as char];
    if n < 10 then digit else Decimal(n / 10) + digit
  }

  lemma {:induction false} DecimalMeans(n: nat)
    ensures DigitsValue(Decimal(n)) == n
    decreases n
  {
    var s := Decimal(n);
    if n >= 10 {
      DecimalMeans(n / 10);
      assert s[..|s| - 1] == Decimal(n / 10);
    } else {
      assert s[..0] == "";
    }
  }

  /** strconv.Atoi on a 64-bit platform: an optional sign, decimal digits, no overflow. */
  function Atoi(s: string): Option<int> {
    var signed := s != "" && (s[0] == '-' || s[0] == '+');
    var digits := if signed then s[1..] else s;
    if !AllDigits(digits) then None
    else
      var n := if signed && s[0] == '-' then -DigitsValue(digits) else DigitsValue(digits);
      if -0x8000_0000_0000_0000 <= n < 0x8000_0000_0000_0000 then Some(n) else None
  }

  /** Digits with or without a sign, if the number fits 64 bits; nothing else is a number. */
  lemma {:induction false} AtoiExactly(s: string, digits: string)
    requires AllDigits(digits)
    ensures s == digits || s == "+" + digits ==>
      Atoi(s) == if DigitsValue(digits) <= 9_223_372_036_854_775_807 then Some(DigitsValue(digits)) else None
    ensures s == "-" + digits ==>
      Atoi(s) == if DigitsValue(digits) <= 9_223_372_036_854_775_808 then Some(-DigitsValue(digits)) else None
    ensures Atoi(s).Some? ==> AllDigits(s) || (s != "" && s[0] in {'+', '-'} && AllDigits(s[1..]))
  {
    assert ("+" + digits)[1..] == digits && ("-" + digits)[1..] == digits;
  }
}
