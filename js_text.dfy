/**
 * The ECMAScript string built-ins that the leaderboard code relies on:
 * String.prototype.trim, String.prototype.split with a one-character
 * separator, Array.prototype.join, parseInt with radix 10 (ECMA-262,
 * section 19.2.5) and the decimal text of an integral Number.
 */
module JsText {
  import opened Wrappers

  /** WhiteSpace or LineTerminator (ECMA-262, sections 12.2 and 12.3):
      the characters that trim removes and that parseInt skips. */
  predicate IsSpace(c: char) {
    || c == '\t' || c == '\n' || c == '\U{000B}' || c == '\U{000C}' || c == '\r' || c == ' '
    || c == '\U{00A0}' || c == '\U{1680}' || ('\U{2000}' <= c <= '\U{200A}')
    || c == '\U{2028}' || c == '\U{2029}' || c == '\U{202F}' || c == '\U{205F}'
    || c == '\U{3000}' || c == '\U{FEFF}'
  }

  /** `s` without its leading white space: a suffix of `s`. */
  function TrimStart(s: string): (r: string)
    ensures |r| <= |s| && r == s[|s| - |r|..]
    ensures forall i :: 0 <= i < |s| - |r| ==> IsSpace(s[i])
    ensures r == [] || !IsSpace(r[0])
  {
    if s != [] && IsSpace(s[0]) then TrimStart(s[1..]) else s
  }

  /** `s` without its trailing white space: a prefix of `s`. */
  function TrimEnd(s: string): (r: string)
    ensures |r| <= |s| && r == s[..|r|]
    ensures forall i :: |r| <= i < |s| ==> IsSpace(s[i])
    ensures r == [] || !IsSpace(r[|r| - 1])
  {
    if s != [] && IsSpace(s[|s| - 1]) then TrimEnd(s[..|s| - 1]) else s
  }

  /** String.prototype.trim. */
  function Trim(s: string): string {
    TrimEnd(TrimStart(s))
  }

  /** Trimming yields a piece of the string that neither starts nor ends with white space. */
  lemma TrimEnds(s: string)
    ensures var r := Trim(s);
            && |r| <= |s|
            && (r == [] || (!IsSpace(r[0]) && !IsSpace(r[|r| - 1])))
  {
  }

  /** A string trims to nothing exactly when every character of it is white space. */
  lemma TrimBlank(s: string)
    ensures Trim(s) == [] <==> forall i :: 0 <= i < |s| ==> IsSpace(s[i])
  {
  }

  /** Trimming leaves a string alone when it neither starts nor ends with white space. */
  lemma TrimUnchanged(s: string)
    requires s != [] ==> !IsSpace(s[0]) && !IsSpace(s[|s| - 1])
    ensures Trim(s) == s
  {
  }

  /** Array.prototype.join with a one-character separator. */
  function Join(parts: seq<string>, sep: char): string {
    if |parts| == 0 then []
    else if |parts| == 1 then parts[0]
    else parts[0] + [sep] + Join(parts[1..], sep)
  }

  /** A join starts with its first piece and ends with its last. */
  lemma {:induction false} JoinEnds(parts: seq<string>, sep: char)
    requires |parts| >= 1
    ensures parts[0] <= Join(parts, sep)
    ensures var s, p := Join(parts, sep), parts[|parts| - 1];
            |p| <= |s| && s[|s| - |p|..] == p
  {
    if |parts| > 1 {
      JoinEnds(parts[1..], sep);
    }
  }

  /** A non-empty suffix carries the last character of the whole. */
  lemma SuffixLast(s: string, p: string)
    requires p != [] && |p| <= |s| && s[|s| - |p|..] == p
    ensures s[|s| - 1] == p[|p| - 1]
  {
    assert s[|s| - |p|..][|p| - 1] == s[|s| - 1];
  }

  /** String.prototype.split with a one-character separator: the pieces
      between separators, in order, as many as there are separators plus one. */
  function Split(s: string, sep: char): (parts: seq<string>)
    ensures |parts| >= 1
    ensures forall i :: 0 <= i < |parts| ==> sep !in parts[i]
    ensures Join(parts, sep) == s
  {
    if s == [] then [[]]
    else
      var rest := Split(s[1..], sep);
      if s[0] == sep then
        assert [s[0]] + s[1..] == s;
        [[]] + rest
      else
        var parts := [[s[0]] + rest[0]] + rest[1..];
        assert parts[1..] == rest[1..];
        assert [s[0]] + s[1..] == s;
        parts
  }

  /** A string without the separator splits into itself. */
  lemma {:induction false} SplitNoSeparator(p: string, sep: char)
    requires sep !in p
    ensures Split(p, sep) == [p]
  {
    if p != [] {
      SplitNoSeparator(p[1..], sep);
      assert [p[0]] + p[1..] == p;
    }
  }

  /** Splitting past a separator-free first piece. */
  lemma {:induction false} SplitAfterPiece(p: string, sep: char, t: string)
    requires sep !in p
    ensures Split(p + [sep] + t, sep) == [p] + Split(t, sep)
  {
    if p == [] {
      assert ([sep] + t)[1..] == t;
    } else {
      var u := p + [sep] + t;
      assert u[0] == p[0] != sep;
      assert u[1..] == p[1..] + [sep] + t;
      SplitAfterPiece(p[1..], sep, t);
      var rest := Split(u[1..], sep);
      assert rest[0] == p[1..] && rest[1..] == Split(t, sep);
      assert Split(u, sep) == [[u[0]] + rest[0]] + rest[1..];
      assert [p[0]] + p[1..] == p;
    }
  }

  /** Split undoes Join when no piece holds the separator. */
  lemma {:induction false} SplitJoin(parts: seq<string>, sep: char)
    requires |parts| >= 1
    requires forall i :: 0 <= i < |parts| ==> sep !in parts[i]
    ensures Split(Join(parts, sep), sep) == parts
  {
    if |parts| == 1 {
      SplitNoSeparator(parts[0], sep);
    } else {
      SplitJoin(parts[1..], sep);
      SplitAfterPiece(parts[0], sep, Join(parts[1..], sep));
      assert [parts[0]] + parts[1..] == parts;
    }
  }

  predicate IsDigit(c: char) {
    '0' <= c <= '9'
  }

  predicate AllDigits(s: string) {
    forall i :: 0 <= i < |s| ==> IsDigit(s[i])
  }

  function DigitChar(d: nat): char
    requires d < 10
  {
    ('0' as int + d) as char
  }

  function DigitValue(c: char): nat
    requires IsDigit(c)
  {
    c as int - '0' as int
  }

  /** The value of a string of decimal digits, most significant first. */
  function DigitsValue(ds: string): nat
    requires AllDigits(ds)
  {
    if ds == [] then 0 else 10 * DigitsValue(ds[..|ds| - 1]) + DigitValue(ds[|ds| - 1])
  }

  /** The decimal text of a natural number, without leading zeros. */
  function NatText(n: nat): (r: string)
    ensures r != [] && AllDigits(r)
    ensures r[0] == '0' ==> r == "0"
    ensures DigitsValue(r) == n
  {
    if n < 10 then [DigitChar(n)]
    else
      var r := NatText(n / 10) + [DigitChar(n % 10)];
      assert r[..|r| - 1] == NatText(n / 10);
      r
  }

  /** The text of an integral Number, as template literals write it. */
  function IntText(n: int): (r: string)
    ensures r != [] && !IsSpace(r[0]) && !IsSpace(r[|r| - 1]) && IsDigit(r[|r| - 1])
    ensures r[0] == '-' <==> n < 0
    ensures forall i :: 0 <= i < |r| ==> r[i] == '-' || IsDigit(r[i])
  {
    if n < 0 then ['-'] + NatText(-n) else NatText(n)
  }

  /** After the sign, an integer's text is the decimal text of its magnitude:
      digits only, no leading zero, denoting |n|. */
  lemma IntTextDenotes(n: int)
    ensures var r := IntText(n); var d := if n < 0 then r[1..] else r;
            d != [] && AllDigits(d) && (d[0] == '0' ==> d == "0") && DigitsValue(d) == (if n < 0 then -n else n)
  {
    if n < 0 {
      assert IntText(n)[1..] == NatText(-n);
    }
  }

  /** The longest prefix of `s` made of decimal digits. */
  function LeadingDigits(s: string): (ds: string)
    ensures |ds| <= |s| && ds == s[..|ds|] && AllDigits(ds)
    ensures |ds| < |s| ==> !IsDigit(s[|ds|])
  {
    if s != [] && IsDigit(s[0]) then [s[0]] + LeadingDigits(s[1..]) else []
  }

  /** parseInt(s, 10), with NaN as None: skip leading white space, then
      read an optionally signed integer. */
  function ParseInt(s: string): (r: Option<int>)
    ensures (forall i :: 0 <= i < |s| ==> !IsDigit(s[i])) ==> r.None?
  {
    NeedsDigit(s);
    ParseSigned(TrimStart(s))
  }

  /** An optional sign, then the longest run of digits; no digits is NaN. */
  function ParseSigned(t: string): Option<int> {
    var negative := t != [] && t[0] == '-';
    var unsigned := if t != [] && (t[0] == '-' || t[0] == '+') then t[1..] else t;
    var ds := LeadingDigits(unsigned);
    var value: int := if ds == [] then 0 else DigitsValue(ds);
    if ds == [] then None else Some(if negative then -value else value)
  }

  /** With no digit anywhere in `s`, there is none after its leading white space and sign. */
  lemma NeedsDigit(s: string)
    ensures (forall i :: 0 <= i < |s| ==> !IsDigit(s[i])) ==> ParseSigned(TrimStart(s)).None?
  {
    var t := TrimStart(s);
    if t != [] && (t[0] == '-' || t[0] == '+') {
      assert t[1..] == [] || t[1..][0] == s[|s| - |t| + 1];
    } else {
      assert t == [] || t[0] == s[|s| - |t|];
    }
  }

  /** Leading white space is skipped up to the first other character. */
  lemma TrimStartSkips(ws: string, x: string)
    requires forall i :: 0 <= i < |ws| ==> IsSpace(ws[i])
    requires x == [] || !IsSpace(x[0])
    ensures TrimStart(ws + x) == x
  {
    var s := ws + x;
    var r := TrimStart(s);
    if x != [] {
      assert s[|ws|] == x[0];
    }
    assert forall j :: 0 <= j < |ws| ==> s[j] == ws[j];
    assert |r| == |x|;
    assert s[|ws|..] == x;
  }

  /** parseInt skips leading white space. */
  lemma ParseIntSkipsSpace(ws: string, x: string)
    requires forall i :: 0 <= i < |ws| ==> IsSpace(ws[i])
    requires x == [] || !IsSpace(x[0])
    ensures ParseInt(ws + x) == ParseSigned(x)
  {
    TrimStartSkips(ws, x);
  }

  /** parseInt of white space, digits and then anything not starting with
      a digit: the digits' value. Leading zeros change nothing. */
  lemma ParseIntLeadingInteger(ws: string, ds: string, rest: string)
    requires forall i :: 0 <= i < |ws| ==> IsSpace(ws[i])
    requires ds != [] && AllDigits(ds)
    requires rest == [] || !IsDigit(rest[0])
    ensures ParseInt(ws + ds + rest) == Some(DigitsValue(ds))
  {
    var x := ds + rest;
    assert ws + ds + rest == ws + x;
    ParseSignedDigits(ds, rest);
    ParseIntSkipsSpace(ws, x);
  }

  /** The same with a sign before the digits: `-` negates, `+` changes nothing. */
  lemma ParseIntLeadingSigned(ws: string, sign: char, ds: string, rest: string)
    requires forall i :: 0 <= i < |ws| ==> IsSpace(ws[i])
    requires sign == '+' || sign == '-'
    requires ds != [] && AllDigits(ds)
    requires rest == [] || !IsDigit(rest[0])
    ensures ParseInt(ws + [sign] + ds + rest) == Some(if sign == '-' then -(DigitsValue(ds) as int) else DigitsValue(ds))
  {
    var x := [sign] + (ds + rest);
    assert ws + [sign] + ds + rest == ws + x;
    ParseSignedSign(sign, ds, rest);
    ParseIntSkipsSpace(ws, x);
  }

  /** A sign, digits, then anything not starting with a digit. */
  lemma ParseSignedSign(sign: char, ds: string, rest: string)
    requires sign == '+' || sign == '-'
    requires ds != [] && AllDigits(ds)
    requires rest == [] || !IsDigit(rest[0])
    ensures var x := [sign] + (ds + rest);
            && !IsSpace(x[0])
            && ParseSigned(x) == Some(if sign == '-' then -(DigitsValue(ds) as int) else DigitsValue(ds))
  {
    var x := [sign] + (ds + rest);
    assert x[0] == sign && x[1..] == ds + rest;
    LeadingDigitsOf(ds, rest);
  }

  /** Digits followed by anything not starting with a digit read as their value. */
  lemma ParseSignedDigits(ds: string, rest: string)
    requires ds != [] && AllDigits(ds)
    requires rest == [] || !IsDigit(rest[0])
    ensures ParseSigned(ds + rest) == Some(DigitsValue(ds))
  {
    LeadingDigitsOf(ds, rest);
    var u := ds + rest;
    assert u[0] == ds[0] && IsDigit(u[0]);
  }

  /** parseInt is NaN when no digit follows the leading white space and
      the optional sign. */
  lemma ParseIntNoInteger(ws: string, sign: string, rest: string)
    requires forall i :: 0 <= i < |ws| ==> IsSpace(ws[i])
    requires sign == "" || sign == "+" || sign == "-"
    requires rest == [] || !IsDigit(rest[0])
    requires sign == "" && rest != [] ==> !IsSpace(rest[0]) && rest[0] != '+' && rest[0] != '-'
    ensures ParseInt(ws + sign + rest) == None
  {
    var x := sign + rest;
    assert ws + sign + rest == ws + x;
    if sign != "" {
      assert x[0] == sign[0] && x[1..] == rest;
    } else {
      assert x == rest;
    }
    ParseIntSkipsSpace(ws, x);
  }

  /** parseInt reads back the leading integer of a string, whatever non-digit text follows it. */
  lemma ParseIntText(n: int, rest: string)
    requires rest == [] || !IsDigit(rest[0])
    ensures ParseInt(IntText(n) + rest) == Some(n)
  {
    var s := IntText(n) + rest;
    assert s[0] == IntText(n)[0];
    assert TrimStart(s) == s;
    var m: nat := if n < 0 then -n else n;
    var ds := NatText(m);
    LeadingDigitsOf(ds, rest);
    if n < 0 {
      assert s == ['-'] + (ds + rest);
      assert s[1..] == ds + rest;
    } else {
      assert s == ds + rest;
    }
  }

  lemma {:induction false} LeadingDigitsOf(ds: string, rest: string)
    requires AllDigits(ds)
    requires rest == [] || !IsDigit(rest[0])
    ensures LeadingDigits(ds + rest) == ds
  {
    if ds != [] {
      LeadingDigitsOf(ds[1..], rest);
      assert (ds + rest)[1..] == ds[1..] + rest;
      assert [ds[0]] + ds[1..] == ds;
    }
  }
}
