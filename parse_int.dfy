/**
 * `parseInt(s, 10)` of the JavaScript runtime, as the middleware uses it on
 * the `page` and `limit` parameters: leading white space is skipped, one `+`
 * or `-` is accepted, and the longest run of decimal digits that follows is
 * read; anything after it is ignored. Without a digit the result is NaN,
 * written `None` here.
 */
module ParseInt {
  import opened Wrappers

  /** White space and line terminators as JavaScript's `String.prototype.trim`
      and `parseInt` skip them. */
  predicate IsWhiteSpace(c: char)
  {
    c == '\t' || c == '\U{000B}' || c == '\U{000C}' || c == ' ' || c == '\U{00A0}' || c == '\U{FEFF}'
    || c == '\U{1680}' || ('\U{2000}' <= c <= '\U{200A}') || c == '\U{202F}' || c == '\U{205F}'
    || c == '\U{3000}' || c == '\n' || c == '\r' || c == '\U{2028}' || c == '\U{2029}'
  }

  predicate IsDigit(c: char)
  {
    '0' <= c <= '9'
  }

  function DigitValue(c: char): nat
    requires IsDigit(c)
  {
    (c as int) - ('0' as int)
  }

  function DigitChar(d: nat): (c: char)
    requires d < 10
    ensures IsDigit(c) && DigitValue(c) == d
  {
    ('0' as int + d) as char
  }

  function TrimStart(s: string): (t: string)
    ensures t == [] || !IsWhiteSpace(t[0])
    ensures |t| <= |s|
  {
    if s != [] && IsWhiteSpace(s[0]) then TrimStart(s[1..]) else s
  }

  /** Length of the run of decimal digits `s` starts with. */
  function DigitRun(s: string): (n: nat)
    ensures n <= |s|
    ensures forall i :: 0 <= i < n ==> IsDigit(s[i])
    ensures n == |s| || !IsDigit(s[n])
  {
    if s != [] && IsDigit(s[0]) then 1 + DigitRun(s[1..]) else 0
  }

  /** The number a string of decimal digits denotes. */
  function DigitsValue(ds: string): nat
    requires forall i :: 0 <= i < |ds| ==> IsDigit(ds[i])
  {
    if ds == [] then 0 else 10 * DigitsValue(ds[..|ds| - 1]) + DigitValue(ds[|ds| - 1])
  }

  /** `parseInt(s, 10)`; `None` for NaN. A text without digits is NaN; in
      particular the empty text and an absent parameter's `"undefined"`. */
  function Parse(s: string): (r: Option<int>)
    ensures (forall i :: 0 <= i < |s| ==> !IsDigit(s[i])) ==> r == None
  {
    TrimStartIsSuffix(s);
    var t := TrimStart(s);
    var u := if t != [] && (t[0] == '-' || t[0] == '+') then t[1..] else t;
    assert u != [] ==> u[0] == s[|s| - |u|];
    ParseSigned(t)
  }

  /** The part of `parseInt` after the white space: an optional sign, then
      the digits. */
  function ParseSigned(t: string): Option<int>
  {
    if t != [] && t[0] == '-' then
      match ParseDigits(t[1..])
      case None => None
      case Some(v) => Some(-v)
    else if t != [] && t[0] == '+' then ParseDigits(t[1..])
    else ParseDigits(t)
  }

  /** The value of the leading run of digits, `None` when there is none. */
  function ParseDigits(u: string): Option<int>
  {
    var n := DigitRun(u);
    if n == 0 then None else Some(DigitsValue(u[..n]))
  }

  /** `String(n)` for an integer: its decimal digits, with `-` in front when
      negative. */
  function Show(n: int): (s: string)
    ensures s != []
  {
    if n < 0 then "-" + ShowNat(-n) else ShowNat(n)
  }

  function ShowNat(n: nat): (s: string)
    ensures s != []
    ensures forall i :: 0 <= i < |s| ==> IsDigit(s[i])
  {
    if n < 10 then [DigitChar(n)] else ShowNat(n / 10) + [DigitChar(n % 10)]
  }

  lemma {:induction false} ShowNatValue(n: nat)
    ensures DigitsValue(ShowNat(n)) == n
  {
    if n >= 10 {
      var s := ShowNat(n);
      ShowNatValue(n / 10);
      assert s[..|s| - 1] == ShowNat(n / 10);
    }
  }

  lemma {:induction false} DigitRunOfDigits(s: string, rest: string)
    requires forall i :: 0 <= i < |s| ==> IsDigit(s[i])
    requires rest == [] || !IsDigit(rest[0])
    ensures DigitRun(s + rest) == |s|
    ensures (s + rest)[..|s|] == s
    decreases |s|
  {
    if s != [] {
      DigitRunOfDigits(s[1..], rest);
      ConsTail(s, rest);
    } else {
      assert s + rest == rest;
    }
  }

  lemma ConsTail(s: string, rest: string)
    requires s != []
    ensures (s + rest)[0] == s[0] && (s + rest)[1..] == s[1..] + rest
    ensures (s + rest)[..|s|] == s
  {
  }

  /** `parseInt` reads back what `String` writes, and stops at the first
      character that is not a digit. */
  lemma ParseShow(n: int, rest: string)
    requires rest == [] || !IsDigit(rest[0])
    ensures Parse(Show(n) + rest) == Some(n)
  {
    if n < 0 {
      ParseShowNegative(-n, rest);
      assert Show(n) == "-" + ShowNat(-n);
    } else {
      ParseShownDigits(n, rest);
      assert Show(n) == ShowNat(n);
    }
  }

  lemma ParseShowNegative(m: nat, rest: string)
    requires rest == [] || !IsDigit(rest[0])
    ensures Parse("-" + ShowNat(m) + rest) == Some(-(m as int))
  {
    DigitsOfShown(m, rest);
    NegatedDigits(ShowNat(m) + rest, m);
    assert "-" + ShowNat(m) + rest == "-" + (ShowNat(m) + rest);
  }

  lemma NegatedDigits(u: string, v: int)
    requires ParseDigits(u) == Some(v)
    ensures Parse("-" + u) == Some(-v)
  {
    var s := "-" + u;
    assert s[0] == '-' && s[1..] == u;
    NoLeadingWhiteSpace(s);
  }

  lemma ParseShownDigits(m: nat, rest: string)
    requires rest == [] || !IsDigit(rest[0])
    ensures ParseDigits(ShowNat(m) + rest) == Some(m)
    ensures ParseSigned(ShowNat(m) + rest) == Some(m)
    ensures Parse(ShowNat(m) + rest) == Some(m)
  {
    DigitsOfShown(m, rest);
    assert (ShowNat(m) + rest)[0] == ShowNat(m)[0];
    NoLeadingWhiteSpace(ShowNat(m) + rest);
  }

  lemma DigitsOfShown(m: nat, rest: string)
    requires rest == [] || !IsDigit(rest[0])
    ensures ParseDigits(ShowNat(m) + rest) == Some(m)
  {
    ShowNatValue(m);
    DigitRunOfDigits(ShowNat(m), rest);
  }

  /** A text that starts with a digit or a sign is not trimmed. */
  lemma NoLeadingWhiteSpace(s: string)
    requires s != [] && (IsDigit(s[0]) || s[0] == '-')
    ensures TrimStart(s) == s
  {
  }

  /** Leading white space does not change the result. */
  lemma ParseSkipsWhiteSpace(ws: string, s: string)
    requires forall i :: 0 <= i < |ws| ==> IsWhiteSpace(ws[i])
    ensures Parse(ws + s) == Parse(s)
  {
    TrimStartSkips(ws, s);
  }

  lemma {:induction false} TrimStartSkips(ws: string, s: string)
    requires forall i :: 0 <= i < |ws| ==> IsWhiteSpace(ws[i])
    ensures TrimStart(ws + s) == TrimStart(s)
    decreases |ws|
  {
    if ws != [] {
      assert (ws + s)[0] == ws[0];
      assert (ws + s)[1..] == ws[1..] + s;
      TrimStartSkips(ws[1..], s);
    } else {
      assert ws + s == s;
    }
  }

  lemma {:induction false} TrimStartIsSuffix(s: string)
    ensures TrimStart(s) == s[|s| - |TrimStart(s)|..]
    decreases |s|
  {
    if s != [] && IsWhiteSpace(s[0]) {
      TrimStartIsSuffix(s[1..]);
      assert s[1..][|s| - 1 - |TrimStart(s)|..] == s[|s| - |TrimStart(s)|..];
    }
  }
}
