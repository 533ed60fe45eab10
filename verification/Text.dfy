/**
 * Python's text primitives on ASCII text: `str.split`, `str.join`, `str(int)` and `int(str, base)`.
 * The market and the reloader keep numbers as text, so each value they store is shown and parsed back.
 */
module Text {
  import opened Outcomes

  /** What `int()` skips at both ends of an ASCII string. */
  predicate IsSpace(c: char) {
    9 <= c as int <= 13 || c == ' '
  }

  /** What `str.strip()` removes: also the four ASCII separators. */
  predicate IsStripped(c: char) {
    IsSpace(c) || 28 <= c as int <= 31
  }

  predicate HasBlankEnds(s: string) {
    |s| > 0 && (IsStripped(s[0]) || IsStripped(s[|s| - 1]))
  }

  function TrimLeft(s: string): string {
    if |s| > 0 && IsSpace(s[0]) then TrimLeft(s[1..]) else s
  }

  function TrimRight(s: string): string {
    if |s| > 0 && IsSpace(s[|s| - 1]) then TrimRight(s[..|s| - 1]) else s
  }

  predicate IsDigit(c: char) {
    '0' <= c <= '9'
  }

  /** The digit a character stands for, or 99 for a character that is no digit in any base used here. */
  function DigitValue(c: char): nat {
    if '0' <= c <= '9' then c as int - '0' as int
    else if 'a' <= c <= 'f' then c as int - 'a' as int + 10
    else if 'A' <= c <= 'F' then c as int - 'A' as int + 10
    else 99
  }

  function DigitChar(d: nat): char
    requires d < 16
  {
    "0123456789abcdef"[d]
  }

  /** Digits of the base, with single underscores allowed between two digits. */
  function Magnitude(s: string, base: nat): Option<nat> {
    if |s| == 0 then None
    else
      var d := DigitValue(s[|s| - 1]);
      if d >= base then None
      else if |s| == 1 then Some(d)
      else
        var rest := if s[|s| - 2] == '_' then s[..|s| - 2] else s[..|s| - 1];
        var high :- Magnitude(rest, base);
        Some(high * base + d)
  }

  /** Python's `int(s, base)` for the bases 10 and 16; base 16 accepts a 0x prefix. */
  function ParseInt(s: string, base: nat): Option<int> {
    var t := TrimRight(TrimLeft(s));
    var signed := |t| > 0 && (t[0] == '-' || t[0] == '+');
    var u := if signed then t[1..] else t;
    var prefixed := base == 16 && |u| >= 2 && u[0] == '0' && (u[1] == 'x' || u[1] == 'X');
    var w := if !prefixed then u else if |u| > 2 && u[2] == '_' then u[3..] else u[2..];
    var v :- Magnitude(w, base);
    Some(if signed && t[0] == '-' then -(v as int) else v)
  }

  predicate IsShown(c: char, base: nat) {
    && DigitValue(c) < base && !IsStripped(c) && c !in "_xX"
    && (base == 10 ==> IsDigit(c))
  }

  lemma DigitCharIsShown(d: nat, base: nat)
    requires d < base && (base == 10 || base == 16)
    ensures IsShown(DigitChar(d), base) && DigitValue(DigitChar(d)) == d
    ensures d != 0 ==> DigitChar(d) != '0'
  {
  }

  lemma Quotient(n: nat, base: nat)
    requires base == 10 || base == 16
    requires n >= base
    ensures 0 < n / base < n && 0 <= n % base < base && n / base * base + n % base == n
  {
    if base == 10 {
      assert n / 10 * 10 + n % 10 == n;
    } else {
      assert n / 16 * 16 + n % 16 == n;
    }
  }

  /** The shortest text of a natural number, as `str()` and `format(n, "x")` give it. */
  function Show(n: nat, base: nat): (s: string)
    requires base == 10 || base == 16
    ensures |s| > 0
    ensures forall c <- s :: IsShown(c, base)
    ensures n != 0 ==> s[0] != '0'
  {
    if n < base then
      DigitCharIsShown(n, base);
      [DigitChar(n)]
    else
      Quotient(n, base);
      DigitCharIsShown(n % base, base);
      Show(n / base, base) + [DigitChar(n % base)]
  }

  function ShowInt(n: int): string {
    if n < 0 then "-" + Show(-n, 10) else Show(n, 10)
  }

  lemma MagnitudeAppend(high: string, d: nat, base: nat, v: nat)
    requires d < base && (base == 10 || base == 16)
    requires |high| > 0 && high[|high| - 1] != '_' && Magnitude(high, base) == Some(v)
    ensures Magnitude(high + [DigitChar(d)], base) == Some(v * base + d)
  {
    hide DigitValue, DigitChar;
    DigitCharIsShown(d, base);
    var s := high + [DigitChar(d)];
    assert s[..|s| - 1] == high && s[|s| - 1] == DigitChar(d) && s[|s| - 2] == high[|high| - 1];
    assert Magnitude(s, base) == Some(v * base + d);
  }

  lemma {:induction false} MagnitudeOfShow(n: nat, base: nat)
    requires base == 10 || base == 16
    ensures Magnitude(Show(n, base), base) == Some(n)
  {
    if n < base {
      DigitCharIsShown(n, base);
    } else {
      Quotient(n, base);
      var high := Show(n / base, base);
      assert high[|high| - 1] in high;
      MagnitudeOfShow(n / base, base);
      MagnitudeAppend(high, n % base, base, n / base);
    }
  }

  lemma TrimKeeps(s: string)
    requires |s| > 0 ==> !IsSpace(s[0]) && !IsSpace(s[|s| - 1])
    ensures TrimRight(TrimLeft(s)) == s
  {
  }

  /** What is shown is parsed back to the same number. */
  lemma ParseOfShow(n: nat, base: nat)
    requires base == 10 || base == 16
    ensures ParseInt(Show(n, base), base) == Some(n)
  {
    hide Show, Magnitude, TrimLeft, TrimRight;
    var s := Show(n, base);
    assert s[0] in s && s[|s| - 1] in s;
    TrimKeeps(s);
    MagnitudeOfShow(n, base);
    assert |s| > 1 ==> s[1] in s;
  }

  lemma ParseOfShowInt(n: int)
    ensures ParseInt(ShowInt(n), 10) == Some(n)
  {
    hide Show, Magnitude, TrimLeft, TrimRight;
    if n >= 0 {
      ParseOfShow(n, 10);
    } else {
      var s := ShowInt(n);
      var m := Show(-n, 10);
      assert s[|s| - 1] == m[|m| - 1] && m[|m| - 1] in m;
      TrimKeeps(s);
      assert s[1..] == m;
      MagnitudeOfShow(-n, 10);
    }
  }

  lemma ShowIntInjective(m: int, n: int)
    requires ShowInt(m) == ShowInt(n)
    ensures m == n
  {
    ParseOfShowInt(m);
    ParseOfShowInt(n);
  }

  predicate AllDigits(s: string) {
    |s| > 0 && forall c <- s :: IsDigit(c)
  }

  lemma {:induction false} MagnitudeOfDigits(s: string)
    requires AllDigits(s)
    ensures Magnitude(s, 10).Some?
  {
    assert s[|s| - 1] in s;
    if |s| > 1 {
      assert s[|s| - 2] in s;
      MagnitudeOfDigits(s[..|s| - 1]);
    }
  }

  /** Plain digits always parse, and never to a negative number. */
  lemma ParseOfDigits(s: string)
    requires AllDigits(s)
    ensures ParseInt(s, 10).Some? && ParseInt(s, 10).value >= 0
  {
    assert s[0] in s && s[|s| - 1] in s;
    TrimKeeps(s);
    MagnitudeOfDigits(s);
  }

  /** `sep.join(parts)`. */
  function Join(parts: seq<string>, sep: char): string {
    if |parts| == 0 then ""
    else if |parts| == 1 then parts[0]
    else parts[0] + [sep] + Join(parts[1..], sep)
  }

  /** `s.split(sep)` for a one-character separator: never empty, and joining gives the text back. */
  function Split(s: string, sep: char): (parts: seq<string>)
    ensures |parts| > 0
    ensures forall p <- parts :: sep !in p
    ensures Join(parts, sep) == s
  {
    if sep !in s then [s]
    else
      var i := Find(s, sep);
      assert s == s[..i] + [sep] + s[i + 1..];
      [s[..i]] + Split(s[i + 1..], sep)
  }

  /** Index of the first occurrence. */
  function Find(s: string, c: char): (i: nat)
    requires c in s
    ensures i < |s| && s[i] == c && c !in s[..i]
  {
    if s[0] == c then 0 else
      assert s == [s[0]] + s[1..];
      var j := Find(s[1..], c);
      assert s[..j + 1] == [s[0]] + s[1..][..j];
      j + 1
  }

  lemma {:induction false} FindIs(s: string, c: char, i: nat)
    requires i < |s| && s[i] == c && c !in s[..i]
    ensures Find(s, c) == i
  {
    if i > 0 {
      assert s[0] in s[..i] && s[..i][1..] == s[1..][..i - 1];
      FindIs(s[1..], c, i - 1);
    }
  }

  lemma {:induction false} SplitOfJoin(parts: seq<string>, sep: char)
    requires |parts| > 0
    requires forall p <- parts :: sep !in p
    ensures Split(Join(parts, sep), sep) == parts
  {
    var s := Join(parts, sep);
    if |parts| > 1 {
      var rest := Join(parts[1..], sep);
      assert s == parts[0] + [sep] + rest;
      var i := |parts[0]|;
      assert s[..i] == parts[0] && parts[0] in parts;
      FindIs(s, sep, |parts[0]|);
      assert s[..i] == parts[0] && s[i + 1..] == rest;
      SplitOfJoin(parts[1..], sep);
    } else {
      assert parts[0] in parts;
    }
  }

  /** Every character of a joined text is the separator or comes from a part. */
  lemma {:induction false} JoinChars(parts: seq<string>, sep: char, c: char)
    requires c in Join(parts, sep)
    ensures c == sep || exists p <- parts :: c in p
  {
    if |parts| == 1 {
      assert c in parts[0];
    } else {
      var rest := Join(parts[1..], sep);
      if c in parts[0] {
      } else if c != sep {
        assert c in rest;
        JoinChars(parts[1..], sep, c);
        var p :| p in parts[1..] && c in p;
        assert p in parts;
      }
    }
  }
}
