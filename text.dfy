/** The few Python string built-ins the launcher leans on: `str.strip()`, `str.split()`,
    `str(int)` and `int(str)`. */
module Text {
  import opened Wrappers

  /** Python's `str.isspace()` for one character: the code points that `strip()` and
      `split()` (with no argument) treat as whitespace. */
  predicate IsSpace(c: char) {
    ('\t' <= c <= '\r') || ('\U{1c}' <= c <= ' ') || c == '\U{85}' || c == '\U{a0}' ||
    c == '\U{1680}' || ('\U{2000}' <= c <= '\U{200a}') || c == '\U{2028}' || c == '\U{2029}' ||
    c == '\U{202f}' || c == '\U{205f}' || c == '\U{3000}'
  }

  predicate AllSpace(s: string) {
    forall i :: 0 <= i < |s| ==> IsSpace(s[i])
  }

  predicate NoSpace(s: string) {
    forall i :: 0 <= i < |s| ==> !IsSpace(s[i])
  }

  /** Neither starts nor ends with whitespace. */
  predicate Trimmed(s: string) {
    s == [] || (!IsSpace(s[0]) && !IsSpace(s[|s| - 1]))
  }

  /** The information separators U+001C..U+001F: whitespace to `strip()` and `split()`, but
      not to `int()`, whose whitespace skipping on ASCII text knows only tab, line feed,
      vertical tab, form feed, carriage return and space. */
  predicate IsSeparator(c: char) {
    '\U{1c}' <= c <= '\U{1f}'
  }

  predicate HasSeparator(s: string) {
    exists i :: 0 <= i < |s| && IsSeparator(s[i])
  }

  /** The whitespace `int()` skips around its digits. */
  predicate IsIntSpace(c: char) {
    IsSpace(c) && !IsSeparator(c)
  }

  predicate AllIntSpace(s: string) {
    forall i :: 0 <= i < |s| ==> IsIntSpace(s[i])
  }

  lemma AllSpaceConcat(a: string, b: string)
    requires AllSpace(a) && AllSpace(b)
    ensures AllSpace(a + b)
  {
    forall i | 0 <= i < |a + b| ensures IsSpace((a + b)[i]) {
      if i >= |a| { assert (a + b)[i] == b[i - |a|]; }
    }
  }

  /** `s.lstrip()`: drops leading whitespace, and only that. */
  function TrimLeft(s: string): (r: string)
    ensures |r| <= |s| && r == s[|s| - |r|..]
    ensures AllSpace(s[..|s| - |r|])
    ensures r == [] || !IsSpace(r[0])
    decreases |s|
  {
    if s != [] && IsSpace(s[0]) then TrimLeft(s[1..]) else s
  }

  /** `s.rstrip()`: drops trailing whitespace, and only that. */
  function TrimRight(s: string): (r: string)
    ensures |r| <= |s| && r == s[..|r|]
    ensures AllSpace(s[|r|..])
    ensures r == [] || !IsSpace(r[|r| - 1])
    decreases |s|
  {
    if s != [] && IsSpace(s[|s| - 1]) then
      var r := TrimRight(s[..|s| - 1]);
      assert s[|r|..] == s[..|s| - 1][|r|..] + [s[|s| - 1]];
      AllSpaceConcat(s[..|s| - 1][|r|..], [s[|s| - 1]]);
      r
    else s
  }

  lemma {:induction false} TrimLeftAllSpace(s: string)
    requires AllSpace(s)
    ensures TrimLeft(s) == []
    decreases |s|
  {
    if s != [] {
      assert forall i :: 0 <= i < |s| - 1 ==> s[1..][i] == s[i + 1];
      TrimLeftAllSpace(s[1..]);
    }
  }

  lemma TrimRightEmpty(l: string)
    requires TrimRight(l) == []
    ensures AllSpace(l)
  {
    assert l[0..] == l;
  }

  lemma TrimLeftEmpty(s: string)
    requires TrimLeft(s) == []
    ensures AllSpace(s)
  {
    assert s[..|s|] == s;
  }

  /** What stripping both ends does to the two extremes: nothing is left exactly when `s` is
      all whitespace, and a string with no outer whitespace comes back unchanged. */
  lemma TrimBothEnds(s: string)
    ensures var r := TrimRight(TrimLeft(s)); (r == [] <==> AllSpace(s)) && (Trimmed(s) ==> r == s)
  {
    if AllSpace(s) {
      TrimLeftAllSpace(s);
    }
    if TrimRight(TrimLeft(s)) == [] {
      TrimRightEmpty(TrimLeft(s));
      TrimLeftEmpty(s);
    }
  }

  /** `s.strip()`. */
  function Strip(s: string): (r: string)
    ensures Trimmed(r)
    ensures r == [] <==> AllSpace(s)
    ensures Trimmed(s) ==> r == s
  {
    TrimBothEnds(s);
    TrimRight(TrimLeft(s))
  }

  lemma {:induction false} TrimLeftPadded(pre: string, u: string)
    requires AllSpace(pre) && (u == [] || !IsSpace(u[0]))
    ensures TrimLeft(pre + u) == u
    decreases |pre|
  {
    if pre == [] {
      assert pre + u == u;
    } else {
      assert (pre + u)[1..] == pre[1..] + u;
      TrimLeftPadded(pre[1..], u);
    }
  }

  lemma {:induction false} TrimRightPadded(u: string, post: string)
    requires AllSpace(post) && (u == [] || !IsSpace(u[|u| - 1]))
    ensures TrimRight(u + post) == u
    decreases |post|
  {
    if post == [] {
      assert u + post == u;
    } else {
      var s := u + post;
      assert s[..|s| - 1] == u + post[..|post| - 1];
      TrimRightPadded(u, post[..|post| - 1]);
    }
  }

  /** Stripping removes exactly the whitespace added around a string without outer
      whitespace. */
  lemma StripPadded(pre: string, t: string, post: string)
    requires AllSpace(pre) && AllSpace(post) && t != [] && Trimmed(t)
    ensures Strip(pre + t + post) == t
  {
    assert pre + t + post == pre + (t + post);
    assert (t + post)[0] == t[0];
    TrimLeftPadded(pre, t + post);
    TrimRightPadded(t, post);
  }

  lemma StripIdempotent(s: string)
    ensures Strip(Strip(s)) == Strip(s)
  {
  }

  /** The longest prefix of `s` holding no whitespace. */
  function Word(s: string): (w: string)
    ensures |w| <= |s| && w == s[..|w|]
    ensures NoSpace(w)
    ensures |w| < |s| ==> IsSpace(s[|w|])
    decreases |s|
  {
    if s == [] || IsSpace(s[0]) then [] else [s[0]] + Word(s[1..])
  }

  /** `s.split()` with no separator: the maximal runs of non-whitespace, in order. */
  function Split(s: string): (ts: seq<string>)
    ensures forall i :: 0 <= i < |ts| ==> ts[i] != [] && NoSpace(ts[i])
    ensures ts == [] <==> AllSpace(s)
    decreases |s|
  {
    if s == [] then []
    else if IsSpace(s[0]) then
      assert AllSpace(s) <==> AllSpace(s[1..]) by {
        if AllSpace(s[1..]) {
          forall i | 0 <= i < |s| ensures IsSpace(s[i]) {
            if i > 0 { assert s[i] == s[1..][i - 1]; }
          }
        }
      }
      Split(s[1..])
    else
      var w := Word(s);
      [w] + Split(s[|w|..])
  }

  /** `" ".join(ts)`. */
  function JoinWords(ts: seq<string>): string {
    if ts == [] then "" else if |ts| == 1 then ts[0] else ts[0] + " " + JoinWords(ts[1..])
  }

  lemma {:induction false} WordOfNoSpacePrefix(w: string, rest: string)
    requires NoSpace(w)
    requires rest == [] || IsSpace(rest[0])
    ensures Word(w + rest) == w
    decreases |w|
  {
    if w == [] {
      assert w + rest == rest;
    } else {
      assert (w + rest)[1..] == w[1..] + rest;
      WordOfNoSpacePrefix(w[1..], rest);
      assert w == [w[0]] + w[1..];
    }
  }

  /** A whitespace-free word followed by whitespace (or nothing) splits off as the first token. */
  lemma SplitWordThen(w: string, rest: string)
    requires w != [] && NoSpace(w)
    requires rest == [] || IsSpace(rest[0])
    ensures Split(w + rest) == [w] + Split(rest)
  {
    WordOfNoSpacePrefix(w, rest);
    assert (w + rest)[0] == w[0];
    assert (w + rest)[|w|..] == rest;
  }

  /** Joining well-formed tokens with single spaces and splitting again gives the tokens back. */
  lemma {:induction false} SplitJoinWords(ts: seq<string>)
    requires forall i :: 0 <= i < |ts| ==> ts[i] != [] && NoSpace(ts[i])
    ensures Split(JoinWords(ts)) == ts
  {
    if |ts| == 1 {
      SplitWordThen(ts[0], "");
      assert ts[0] + "" == ts[0];
    } else if |ts| > 1 {
      var rest := " " + JoinWords(ts[1..]);
      assert JoinWords(ts) == ts[0] + rest;
      SplitWordThen(ts[0], rest);
      assert rest[1..] == JoinWords(ts[1..]);
      SplitJoinWords(ts[1..]);
      assert ts == [ts[0]] + ts[1..];
    }
  }

  predicate IsDigit(c: char) {
    '0' <= c <= '9'
  }

  predicate AllDigits(s: string) {
    forall i :: 0 <= i < |s| ==> IsDigit(s[i])
  }

  function DigitChar(d: nat): (c: char)
    requires d < 10
    ensures IsDigit(c)
  {
    (48 + d) as char
  }

  function DigitValue(c: char): (d: nat)
    requires IsDigit(c)
    ensures d < 10
  {
    (c as int) - 48
  }

  /** `str(n)` for a natural number: its decimal digits, without leading zeros. */
  function NatToString(n: nat): (s: string)
    ensures s != [] && AllDigits(s)
    ensures |s| > 1 ==> s[0] != '0'
    decreases n
  {
    if n < 10 then [DigitChar(n)] else NatToString(n / 10) + [DigitChar(n % 10)]
  }

  /** `str(i)` for an integer. */
  function IntToString(i: int): (s: string)
    ensures s != [] && NoSpace(s)
    ensures (i < 0) == (s[0] == '-')
  {
    if i < 0 then "-" + NatToString(-i) else NatToString(i)
  }

  /** The value of a string of decimal digits. */
  function DigitsValue(s: string): nat
    requires AllDigits(s)
    decreases |s|
  {
    if s == [] then 0 else 10 * DigitsValue(s[..|s| - 1]) + DigitValue(s[|s| - 1])
  }

  /** What `int` accepts once the whitespace around it is gone: an optional `+` or `-` sign
      and one or more decimal digits. */
  function ParseNumeral(t: string): (r: Option<int>)
    ensures r.Some? ==> t != [] && IsDigit(t[|t| - 1])
    ensures r.Some? && r.value < 0 ==> t[0] == '-'
    ensures t != [] && AllDigits(t) ==> r == Some(DigitsValue(t))
    ensures |t| > 1 && t[0] == '-' && AllDigits(t[1..]) ==> r == Some(-(DigitsValue(t[1..]) as int))
    ensures |t| > 1 && t[0] == '+' && AllDigits(t[1..]) ==> r == Some(DigitsValue(t[1..]))
    ensures r.Some? ==>
      (t != [] && AllDigits(t)) || (|t| > 1 && (t[0] == '-' || t[0] == '+') && AllDigits(t[1..]))
  {
    if |t| > 1 && (t[0] == '-' || t[0] == '+') && AllDigits(t[1..]) then
      var v: int := DigitsValue(t[1..]);
      Some(if t[0] == '-' then -v else v)
    else if t != [] && AllDigits(t) then Some(DigitsValue(t))
    else None
  }

  /** Python's `int(s)` on a string: surrounding whitespace is ignored, then an optional `+`
      or `-` sign and one or more decimal digits; `None` stands for the `ValueError` that
      `int` raises on anything else. An information separator anywhere is an error: around
      the digits `int()` does not skip it, and between them it is not a digit. */
  function ParseInt(s: string): (r: Option<int>)
    ensures AllSpace(s) ==> r == None
    ensures HasSeparator(s) ==> r == None
  {
    if HasSeparator(s) then None else ParseNumeral(Strip(s))
  }

  /** What a text `int` accepts looks like once stripped: it ends in a digit, it starts with
      `-` when the value is negative, and a bare run of digits means its decimal value. */
  lemma ParseIntShape(s: string)
    ensures ParseInt(s).Some? ==> var t := Strip(s); t != [] && IsDigit(t[|t| - 1])
    ensures ParseInt(s).Some? && ParseInt(s).value < 0 ==> Strip(s)[0] == '-'
    ensures !HasSeparator(s) && Strip(s) != [] && AllDigits(Strip(s)) ==>
      ParseInt(s) == Some(DigitsValue(Strip(s)))
    ensures ParseInt(s).Some? ==> var t := Strip(s);
      (t != [] && AllDigits(t)) || (|t| > 1 && (t[0] == '-' || t[0] == '+') && AllDigits(t[1..]))
  {
  }

  lemma {:induction false} DigitsValueOfNatToString(n: nat)
    ensures DigitsValue(NatToString(n)) == n
    decreases n
  {
    if n >= 10 {
      var s := NatToString(n);
      assert s[..|s| - 1] == NatToString(n / 10);
      DigitsValueOfNatToString(n / 10);
    }
  }

  /** Text without whitespace has no information separator. */
  lemma NoSpaceNoSeparator(s: string)
    requires NoSpace(s)
    ensures !HasSeparator(s)
  {
  }

  /** `int(str(i)) == i`: rendering an integer and parsing it back is the identity. */
  lemma ParseIntOfIntToString(i: int)
    ensures ParseInt(IntToString(i)) == Some(i)
  {
    assert Trimmed(IntToString(i));
    NoSpaceNoSeparator(IntToString(i));
    if i < 0 {
      DigitsValueOfNatToString(-i);
      assert IntToString(i)[1..] == NatToString(-i);
    } else {
      DigitsValueOfNatToString(i);
    }
  }

  lemma DigitsNoSpace(t: string)
    requires AllDigits(t)
    ensures NoSpace(t)
  {
    forall i | 0 <= i < |t| ensures !IsSpace(t[i]) {
      assert IsDigit(t[i]);
    }
  }

  /** A string of digits means its value, leading zeros included, with either sign. */
  lemma ParseIntOfDigits(t: string)
    requires t != [] && AllDigits(t)
    ensures ParseInt(t) == Some(DigitsValue(t))
    ensures ParseInt("-" + t) == Some(-(DigitsValue(t) as int))
    ensures ParseInt("+" + t) == Some(DigitsValue(t))
  {
    assert Trimmed(t) by {
      assert IsDigit(t[0]) && IsDigit(t[|t| - 1]);
    }
    DigitsNoSpace(t);
    NoSpaceNoSeparator(t);
    assert ParseInt(t) == ParseNumeral(t);
    assert "-" + t == ['-'] + t && "+" + t == ['+'] + t;
    SignedDigits('-', t);
    SignedDigits('+', t);
  }

  /** A sign followed by digits has no whitespace at all. */
  lemma SignedNoSpace(sign: char, t: string)
    requires sign == '-' || sign == '+'
    requires t != [] && AllDigits(t)
    ensures Trimmed([sign] + t) && NoSpace([sign] + t)
  {
    var u := [sign] + t;
    assert u[|u| - 1] == t[|t| - 1];
    assert IsDigit(t[|t| - 1]);
    forall i | 0 <= i < |u| ensures !IsSpace(u[i]) {
      if i > 0 {
        assert u[i] == t[i - 1];
        assert IsDigit(t[i - 1]);
      }
    }
  }

  lemma SignedDigits(sign: char, t: string)
    requires sign == '-' || sign == '+'
    requires t != [] && AllDigits(t)
    ensures ParseInt([sign] + t) ==
      Some(if sign == '-' then -(DigitsValue(t) as int) else DigitsValue(t))
  {
    var u := [sign] + t;
    assert Strip(u) == u && !HasSeparator(u) by {
      SignedNoSpace(sign, t);
      NoSpaceNoSeparator(u);
    }
    NumeralSigned(sign, t);
  }

  /** A sign followed by digits is a numeral with the digits' value, negated after `-`. */
  lemma NumeralSigned(sign: char, t: string)
    requires sign == '-' || sign == '+'
    requires t != [] && AllDigits(t)
    ensures ParseNumeral([sign] + t) ==
      Some(if sign == '-' then -(DigitsValue(t) as int) else DigitsValue(t))
  {
    var u := [sign] + t;
    assert u[1..] == t;
  }


  /** The middle part of a concatenation can be cut back out of it. */
  lemma MiddleSlice(a: string, t: string, b: string)
    ensures (a + t + b)[|a|..|a| + |t|] == t
  {
    assert (a + t + b)[|a|..] == t + b;
  }

  /** A character that is not whitespace is not dropped by `lstrip()`. */
  lemma {:induction false} TrimLeftKeeps(s: string, i: nat)
    requires i < |s| && !IsSpace(s[i])
    ensures |s| - |TrimLeft(s)| <= i
    decreases |s|
  {
    if s != [] && IsSpace(s[0]) {
      assert s[1..][i - 1] == s[i];
      TrimLeftKeeps(s[1..], i - 1);
    }
  }

  /** A character that is not whitespace is not dropped by `rstrip()`. */
  lemma {:induction false} TrimRightKeeps(l: string, i: nat)
    requires i < |l| && !IsSpace(l[i])
    ensures i < |TrimRight(l)|
    decreases |l|
  {
    if l != [] && IsSpace(l[|l| - 1]) {
      assert l[..|l| - 1][i] == l[i];
      TrimRightKeeps(l[..|l| - 1], i);
    }
  }

  /** A suffix of a text without information separators has none either. */
  lemma NoSeparatorSuffix(s: string, l: string)
    requires !HasSeparator(s) && |l| <= |s| && l == s[|s| - |l|..]
    ensures !HasSeparator(l)
  {
    forall i | 0 <= i < |l| ensures !IsSeparator(l[i]) {
      assert l[i] == s[|s| - |l| + i];
    }
  }

  /** A prefix of a text without information separators has none either. */
  lemma NoSeparatorPrefix(l: string, t: string)
    requires !HasSeparator(l) && |t| <= |l| && t == l[..|t|]
    ensures !HasSeparator(t)
  {
    forall i | 0 <= i < |t| ensures !IsSeparator(t[i]) {
      assert t[i] == l[i];
    }
  }

  /** What `strip()` keeps is part of the text, so it holds no separator the text lacks. */
  lemma StripNoSeparator(s: string)
    requires !HasSeparator(s)
    ensures !HasSeparator(Strip(s))
  {
    var l := TrimLeft(s);
    NoSeparatorSuffix(s, l);
    NoSeparatorPrefix(l, TrimRight(l));
  }

  /** `int` reads only the stripped text, unless the text holds an information separator,
      which it rejects wherever it stands. */
  lemma ParseIntOfStripped(s: string)
    ensures HasSeparator(s) ==> ParseInt(s) == None
    ensures !HasSeparator(s) ==> ParseInt(s) == ParseInt(Strip(s))
  {
    if !HasSeparator(s) {
      StripNoSeparator(s);
      StripIdempotent(s);
    }
  }

  /** A character that can appear nowhere in a text `int` accepts. */
  predicate IsStray(c: char) {
    !IsSpace(c) && !IsDigit(c) && c != '+' && c != '-'
  }

  /** A character that is neither whitespace, a digit nor a sign makes `int` fail. */
  lemma ParseIntRejectsStray(s: string, i: nat)
    requires i < |s| && IsStray(s[i])
    ensures ParseInt(s) == None
  {
    var l := TrimLeft(s);
    var k := |s| - |l|;
    TrimLeftKeeps(s, i);
    assert l[i - k] == s[i];
    var t := TrimRight(l);
    TrimRightKeeps(l, i - k);
    assert t[i - k] == s[i];
    NumeralRejectsStray(t, i - k);
  }

  /** A numeral holding a character that is neither a digit nor a sign is refused. */
  lemma NumeralRejectsStray(t: string, j: nat)
    requires j < |t| && IsStray(t[j])
    ensures ParseNumeral(t) == None
  {
    if 0 < j {
      assert t[1..][j - 1] == t[j];
    }
  }

  /** `int` rejects an information separator before the digits. */
  lemma ParseIntRejectsSeparator()
    ensures ParseInt("\U{1c}5") == None
  {
    assert IsSeparator("\U{1c}5"[0]);
  }

  /** Text made only of the whitespace `int` skips has no information separator. */
  lemma PaddingNoSeparator(pre: string, t: string, post: string)
    requires AllIntSpace(pre) && AllIntSpace(post) && NoSpace(t)
    ensures !HasSeparator(pre + t + post) && AllSpace(pre) && AllSpace(post)
  {
    var s := pre + t + post;
    forall j | 0 <= j < |s| ensures !IsSeparator(s[j]) {
      if j < |pre| {
        assert s[j] == pre[j];
      } else if j < |pre| + |t| {
        assert s[j] == t[j - |pre|];
      } else {
        assert s[j] == post[j - |pre| - |t|];
      }
    }
  }

  /** `int` ignores the whitespace it skips around what `str` renders. */
  lemma ParseIntPadded(i: int, pre: string, post: string)
    requires AllIntSpace(pre) && AllIntSpace(post)
    ensures ParseInt(pre + IntToString(i) + post) == Some(i)
  {
    var t := IntToString(i);
    assert Trimmed(t);
    PaddingNoSeparator(pre, t, post);
    StripPadded(pre, t, post);
    ParseIntOfStripped(pre + t + post);
    ParseIntOfIntToString(i);
  }

  /** `int` accepts an explicit `+` sign before a non-negative number, with whitespace
      around. */
  lemma ParseIntPlusSign(n: nat, pre: string, post: string)
    requires AllIntSpace(pre) && AllIntSpace(post)
    ensures ParseInt(pre + "+" + IntToString(n) + post) == Some(n)
  {
    var t := NatToString(n);
    var u := ['+'] + t;
    var padded := pre + u + post;
    assert padded == pre + "+" + IntToString(n) + post by {
      assert IntToString(n) == t;
    }
    assert ParseInt(u) == Some(n) by {
      SignedDigits('+', t);
      DigitsValueOfNatToString(n);
    }
    assert Trimmed(u) && NoSpace(u) by {
      SignedNoSpace('+', t);
    }
    assert !HasSeparator(padded) by {
      PaddingNoSeparator(pre, u, post);
    }
    assert Strip(padded) == u by {
      StripPadded(pre, u, post);
    }
    assert ParseInt(padded) == ParseInt(Strip(padded)) by {
      ParseIntOfStripped(padded);
    }
  }
}
