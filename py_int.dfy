/**
 Python's `int(text)` on a `str`, base 10: surrounding whitespace is
 skipped, an optional `+` or `-` sign may come first, and the digits may be
 grouped by single underscores between digits (`"1_000"`). Anything else is
 a `ValueError`, modelled as `None`.
 */
module PyInt {
  import opened Wrappers

  /** The ASCII whitespace `int()` skips: space, tab, newline, vertical tab, form feed, carriage return. */
  predicate IsSpace(c: char) {
    c == ' ' || '\t' <= c <= '\r'
  }

  /** Every character of `s` is whitespace (true of the empty string). */
  predicate AllSpace(s: string) {
    forall i :: 0 <= i < |s| ==> IsSpace(s[i])
  }

  predicate IsDigit(c: char) {
    '0' <= c <= '9'
  }

  function DigitValue(c: char): (d: nat)
    requires IsDigit(c)
    ensures d < 10
  {
    (c as int) - ('0' as int)
  }

  function DigitChar(d: nat): (c: char)
    requires d < 10
    ensures IsDigit(c) && DigitValue(c) == d
  {
    ('0' as int + d) as char
  }

  function TrimStart(s: string): string
    decreases |s|
  {
    if |s| > 0 && IsSpace(s[0]) then TrimStart(s[1..]) else s
  }

  function TrimEnd(s: string): string
    decreases |s|
  {
    if |s| > 0 && IsSpace(s[|s| - 1]) then TrimEnd(s[..|s| - 1]) else s
  }

  function Strip(s: string): string {
    TrimEnd(TrimStart(s))
  }

  /** Python's grammar for a decimal literal: `digit (["_"] digit)*`. */
  predicate IsDigitPart(t: string) {
    && |t| > 0
    && IsDigit(t[0])
    && IsDigit(t[|t| - 1])
    && (forall i :: 0 <= i < |t| ==> IsDigit(t[i]) || t[i] == '_')
    && (forall i :: 0 <= i < |t| - 1 && t[i] == '_' ==> t[i + 1] != '_')
  }

  /** The value of a run of digits, underscores skipped. */
  function Value(t: string): nat
    requires forall i :: 0 <= i < |t| ==> IsDigit(t[i]) || t[i] == '_'
    decreases |t|
  {
    if |t| == 0 then 0
    else if t[|t| - 1] == '_' then Value(t[..|t| - 1])
    else 10 * Value(t[..|t| - 1]) + DigitValue(t[|t| - 1])
  }

  /** `int(s)`: `Some(n)` when Python returns `n`, `None` when it raises `ValueError`. */
  function ParseInt(s: string): Option<int> {
    var t := Strip(s);
    if |t| > 0 && (t[0] == '-' || t[0] == '+') then
      if IsDigitPart(t[1..]) then
        Some(if t[0] == '-' then 0 - Value(t[1..]) as int else Value(t[1..]) as int)
      else None
    else if IsDigitPart(t) then Some(Value(t))
    else None
  }

  /** `str(n)` for `n >= 0`: the canonical decimal digits. */
  function ShowNat(n: nat): string
    decreases n
  {
    if n < 10 then [DigitChar(n)] else ShowNat(n / 10) + [DigitChar(n % 10)]
  }

  /** `str(n)`: a minus sign for negative numbers, then the digits. */
  function ShowInt(n: int): string {
    if n < 0 then "-" + ShowNat(-n) else ShowNat(n)
  }

  lemma {:induction false} ShowNatDigits(n: nat)
    ensures |ShowNat(n)| > 0
    ensures forall i :: 0 <= i < |ShowNat(n)| ==> IsDigit(ShowNat(n)[i])
    ensures Value(ShowNat(n)) == n
    decreases n
  {
    if n >= 10 {
      ShowNatDigits(n / 10);
      var s := ShowNat(n);
      assert s[..|s| - 1] == ShowNat(n / 10);
      assert s[|s| - 1] == DigitChar(n % 10);
    }
  }

  /** `int(str(n)) == n` for every integer `n`. */
  lemma ParseShowRoundTrip(n: int)
    ensures ParseInt(ShowInt(n)) == Some(n)
  {
    var m: nat := if n < 0 then -n else n;
    ShowNatDigits(m);
    var d := ShowNat(m);
    var s := ShowInt(n);
    assert IsDigitPart(d);
    if n < 0 {
      assert s == ['-'] + d;
      assert s[1..] == d;
    } else {
      assert s == d;
    }
    assert !IsSpace(s[0]) && !IsSpace(s[|s| - 1]);
    assert TrimStart(s) == s;
    assert Strip(s) == s;
  }

  lemma {:induction false} StripSkipsTrailingSpace(s: string, c: char)
    requires IsSpace(c)
    ensures Strip(s + [c]) == Strip(s)
    decreases |s|
  {
    if |s| == 0 {
      assert TrimStart([c]) == TrimStart([]);
    } else if IsSpace(s[0]) {
      assert (s + [c])[1..] == s[1..] + [c];
      StripSkipsTrailingSpace(s[1..], c);
    } else {
      var u := s + [c];
      assert TrimStart(u) == u;
      assert u[..|u| - 1] == s;
    }
  }

  /** Whitespace before or after the number does not change what `int()` returns. */
  lemma ParseIgnoresSurroundingSpace(s: string, c: char)
    requires IsSpace(c)
    ensures ParseInt([c] + s) == ParseInt(s)
    ensures ParseInt(s + [c]) == ParseInt(s)
  {
    assert ([c] + s)[1..] == s;
    StripSkipsTrailingSpace(s, c);
  }

  lemma {:induction false} TrimStartBlank(s: string)
    requires AllSpace(s)
    ensures TrimStart(s) == []
    decreases |s|
  {
    if |s| > 0 {
      TrimStartBlank(s[1..]);
    }
  }

  /** An empty or blank field is not a number: `int("")` raises `ValueError`. */
  lemma BlankIsInvalid(s: string)
    requires AllSpace(s)
    ensures ParseInt(s) == None
  {
    TrimStartBlank(s);
  }

  /** The optional sign in front of the digits: nothing, `+` or `-`. */
  predicate IsSign(t: string) {
    |t| == 0 || (|t| == 1 && (t[0] == '+' || t[0] == '-'))
  }

  /** The number a sign and a digit value stand for. */
  function Signed(sign: string, v: nat): int {
    if |sign| == 1 && sign[0] == '-' then 0 - v as int else v as int
  }

  /**
   `s` is written as the integer `n` in the form `int()` accepts: blanks,
   an optional sign, a digit part, blanks. The cuts are `s[..i]`, `s[i..j]`,
   `s[j..k]` and `s[k..]`.
   */
  ghost predicate Spells(s: string, n: int) {
    exists i, j, k :: 0 <= i <= j <= k <= |s|
      && AllSpace(s[..i]) && IsSign(s[i..j]) && IsDigitPart(s[j..k]) && AllSpace(s[k..])
      && n == Signed(s[i..j], Value(s[j..k]))
  }

  /** What `TrimStart` removes is a blank prefix of `s`. */
  lemma {:induction false} TrimStartCut(s: string)
    ensures |TrimStart(s)| <= |s|
    ensures TrimStart(s) == s[|s| - |TrimStart(s)|..]
    ensures AllSpace(s[..|s| - |TrimStart(s)|])
    ensures |TrimStart(s)| > 0 ==> !IsSpace(TrimStart(s)[0])
    decreases |s|
  {
    if |s| > 0 && IsSpace(s[0]) {
      TrimStartCut(s[1..]);
      var m := |s| - |TrimStart(s)|;
      assert s[1..][m - 1..] == s[m..];
      assert forall x :: 1 <= x < m ==> s[..m][x] == s[1..][..m - 1][x - 1];
    }
  }

  /** What `TrimEnd` removes is a blank suffix of `s`. */
  lemma {:induction false} TrimEndCut(s: string)
    ensures |TrimEnd(s)| <= |s|
    ensures TrimEnd(s) == s[..|TrimEnd(s)|]
    ensures AllSpace(s[|TrimEnd(s)|..])
    ensures |TrimEnd(s)| > 0 ==> !IsSpace(TrimEnd(s)[|TrimEnd(s)| - 1])
    decreases |s|
  {
    if |s| > 0 && IsSpace(s[|s| - 1]) {
      var u := s[..|s| - 1];
      TrimEndCut(u);
      var m := |TrimEnd(s)|;
      assert u[..m] == s[..m];
      assert s[m..] == u[m..] + [s[|s| - 1]];
    }
  }

  /** A blank prefix in front of text that does not start with a blank is trimmed exactly. */
  lemma {:induction false} TrimStartPast(pre: string, u: string)
    requires AllSpace(pre)
    requires |u| > 0 && !IsSpace(u[0])
    ensures TrimStart(pre + u) == u
    decreases |pre|
  {
    if |pre| == 0 {
      assert pre + u == u;
    } else {
      assert (pre + u)[1..] == pre[1..] + u;
      TrimStartPast(pre[1..], u);
    }
  }

  /** A blank suffix after text that does not end with a blank is trimmed exactly. */
  lemma {:induction false} TrimEndPast(u: string, post: string)
    requires AllSpace(post)
    requires |u| > 0 && !IsSpace(u[|u| - 1])
    ensures TrimEnd(u + post) == u
    decreases |post|
  {
    if |post| == 0 {
      assert u + post == u;
    } else {
      var w := u + post;
      assert w[..|w| - 1] == u + post[..|post| - 1];
      TrimEndPast(u, post[..|post| - 1]);
    }
  }

  /** Blanks around text that neither starts nor ends with a blank are exactly what `Strip` removes. */
  lemma StripBetween(s: string, i: nat, k: nat)
    requires i < k <= |s|
    requires AllSpace(s[..i]) && AllSpace(s[k..])
    requires !IsSpace(s[i]) && !IsSpace(s[k - 1])
    ensures Strip(s) == s[i..k]
  {
    assert s == s[..i] + s[i..];
    TrimStartPast(s[..i], s[i..]);
    assert s[i..] == s[i..k] + s[k..];
    TrimEndPast(s[i..k], s[k..]);
  }

  /** Every text in `int()`'s accepted form parses, to the number it spells. */
  lemma ParseAccepts(s: string, i: nat, j: nat, k: nat)
    requires i <= j <= k <= |s|
    requires AllSpace(s[..i]) && IsSign(s[i..j]) && IsDigitPart(s[j..k]) && AllSpace(s[k..])
    ensures ParseInt(s) == Some(Signed(s[i..j], Value(s[j..k])))
  {
    var d := s[j..k];
    assert d[0] == s[j] && d[|d| - 1] == s[k - 1];
    if i < j {
      assert s[i..j][0] == s[i];
    }
    StripBetween(s, i, k);
    var t := s[i..k];
    if i < j {
      assert t[0] == s[i] && t[1..] == d;
    } else {
      assert t == d;
    }
  }

  /** Whatever parses is in `int()`'s accepted form. */
  lemma ParseSpells(s: string)
    requires ParseInt(s).Some?
    ensures Spells(s, ParseInt(s).value)
  {
    TrimStartCut(s);
    var a := TrimStart(s);
    TrimEndCut(a);
    var t := Strip(s);
    var i := |s| - |a|;
    var k := i + |t|;
    assert s[..i] == s[..|s| - |TrimStart(s)|];
    assert s[i..k] == t;
    assert s[k..] == a[|t|..];
    var j := if t[0] == '-' || t[0] == '+' then i + 1 else i;
    assert s[j..k] == (if j == i then t else t[1..]);
    assert j > i ==> s[i..j][0] == t[0];
  }

  /** `int(s)` returns `n` exactly when `s` spells `n` in `int()`'s form; otherwise it raises. */
  lemma ParseIntCharacterized(s: string, n: int)
    ensures ParseInt(s) == Some(n) <==> Spells(s, n)
  {
    if ParseInt(s) == Some(n) {
      ParseSpells(s);
    }
    if Spells(s, n) {
      var i, j, k :| 0 <= i <= j <= k <= |s|
        && AllSpace(s[..i]) && IsSign(s[i..j]) && IsDigitPart(s[j..k]) && AllSpace(s[k..])
        && n == Signed(s[i..j], Value(s[j..k]));
      ParseAccepts(s, i, j, k);
    }
  }
}
