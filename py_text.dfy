/**
  The two pieces of Python text handling `create_drugs_profiles` relies on:
  `str.split(",")` and `int(token)` on a string token.
 */
module PyText {
  import opened Wrappers

  /**
    `s.split(sep)` with an explicit one-character separator: the pieces
    between separators, empty pieces included, so that "" gives [""].
   */
  function Split(s: string, sep: char): (parts: seq<string>)
    ensures |parts| >= 1
    ensures forall i :: 0 <= i < |parts| ==> sep !in parts[i]
  {
    if |s| == 0 then [""]
    else
      var rest := Split(s[1..], sep);
      if s[0] == sep then [""] + rest else [[s[0]] + rest[0]] + rest[1..]
  }

  /** `sep.join(parts)`. */
  function Join(parts: seq<string>, sep: char): string
    requires |parts| >= 1
  {
    if |parts| == 1 then parts[0] else parts[0] + [sep] + Join(parts[1..], sep)
  }

  /** Joining the pieces of a split with the separator gives the string back. */
  lemma {:induction false} JoinSplit(s: string, sep: char)
    ensures Join(Split(s, sep), sep) == s
  {
    if |s| > 0 {
      JoinSplit(s[1..], sep);
      var rest := Split(s[1..], sep);
      if s[0] == sep {
        assert ([""] + rest)[1..] == rest;
      } else {
        var parts := [[s[0]] + rest[0]] + rest[1..];
        if |rest| > 1 {
          assert parts[1..] == rest[1..];
        }
      }
    }
  }

  /** A string without the separator splits into itself alone. */
  lemma {:induction false} SplitNoSeparator(p: string, sep: char)
    requires sep !in p
    ensures Split(p, sep) == [p]
  {
    if |p| > 0 {
      SplitNoSeparator(p[1..], sep);
      assert [p[0]] + p[1..] == p;
    }
  }

  /** A piece without the separator, the separator, then more: the piece comes off first. */
  lemma {:induction false} SplitFirstPiece(p: string, sep: char, t: string)
    requires sep !in p
    ensures Split(p + [sep] + t, sep) == [p] + Split(t, sep)
  {
    if |p| == 0 {
      assert p + [sep] + t == [sep] + t;
      assert ([sep] + t)[1..] == t;
    } else {
      SplitFirstPiece(p[1..], sep, t);
      assert (p + [sep] + t)[1..] == p[1..] + [sep] + t;
      assert [p[0]] + p[1..] == p;
    }
  }

  /** Splitting the join of separator-free pieces gives the pieces back. */
  lemma {:induction false} SplitJoin(parts: seq<string>, sep: char)
    requires |parts| >= 1
    requires forall i :: 0 <= i < |parts| ==> sep !in parts[i]
    ensures Split(Join(parts, sep), sep) == parts
  {
    if |parts| == 1 {
      SplitNoSeparator(parts[0], sep);
    } else {
      SplitJoin(parts[1..], sep);
      SplitFirstPiece(parts[0], sep, Join(parts[1..], sep));
      assert [parts[0]] + parts[1..] == parts;
    }
  }

  /** The characters `str.strip()` removes (Python's `str.isspace`). */
  predicate IsSpace(c: char) {
    || c in {' ', '\t', '\n', '\U{000B}', '\U{000C}', '\r', '\U{0085}', '\U{00A0}', '\U{1680}',
             '\U{2028}', '\U{2029}', '\U{202F}', '\U{205F}', '\U{3000}'}
    || ('\U{001C}' <= c <= '\U{001F}')
    || ('\U{2000}' <= c <= '\U{200A}')
  }

  predicate IsDigit(c: char) {
    '0' <= c <= '9'
  }

  function StripStart(s: string): string {
    if |s| > 0 && IsSpace(s[0]) then StripStart(s[1..]) else s
  }

  function StripEnd(s: string): string {
    if |s| > 0 && IsSpace(s[|s| - 1]) then StripEnd(s[..|s| - 1]) else s
  }

  function Strip(s: string): string {
    StripEnd(StripStart(s))
  }

  /** Decimal digits with single underscores between them, as `int()` accepts them. */
  predicate DigitRun(s: string) {
    && |s| > 0
    && IsDigit(s[0]) && IsDigit(s[|s| - 1])
    && (forall i :: 0 <= i < |s| ==> IsDigit(s[i]) || s[i] == '_')
    && (forall i :: 0 <= i < |s| - 1 ==> s[i] == '_' ==> s[i + 1] != '_')
  }

  /** The digits of a run, underscores dropped. */
  function DigitsOf(s: string): string {
    if |s| == 0 then [] else (if s[0] == '_' then [] else [s[0]]) + DigitsOf(s[1..])
  }

  /** The number a string of decimal digits denotes. */
  function Value(ds: string): nat {
    if |ds| == 0 then 0 else 10 * Value(ds[..|ds| - 1]) + ((ds[|ds| - 1] as int - '0' as int) % 10)
  }

  /**
    `int(token)` on a string: surrounding whitespace is ignored, then an
    optional sign and a run of decimal digits; anything else is a ValueError
    (None).
   */
  function ParseInt(token: string): (r: Option<int>)
    ensures r.Some? ==> var t := Strip(token); |t| > 0 && IsDigit(t[|t| - 1])
    ensures r.Some? && r.value < 0 ==> Strip(token)[0] == '-'
  {
    ParseStripped(Strip(token))
  }

  /** `int()` on a token already stripped of surrounding whitespace. */
  function ParseStripped(t: string): Option<int> {
    if |t| > 0 && (t[0] == '-' || t[0] == '+') then
      match ParseUnsigned(t[1..])
      case None => None
      case Some(v) => Some(if t[0] == '-' then -(v as int) else v)
    else ParseUnsigned(t)
  }

  /** The value of a run of digits with single underscores, or None for anything else. */
  function ParseUnsigned(body: string): Option<nat> {
    if DigitRun(body) then Some(Value(DigitsOf(body))) else None
  }

  // ---------------------------------------------------------------------
  // Round trip with the decimal rendering, and rejection of non-integers

  function DigitChar(d: nat): char
    requires d < 10
  {
    ('0' as int + d) as char
  }

  /** `str(n)` for a natural number. */
  function ShowNat(n: nat): (s: string)
    ensures |s| > 0 && forall i :: 0 <= i < |s| ==> IsDigit(s[i])
  {
    if n < 10 then [DigitChar(n)] else ShowNat(n / 10) + [DigitChar(n % 10)]
  }

  /** `str(n)`. */
  function Show(n: int): string {
    if n < 0 then "-" + ShowNat(-n) else ShowNat(n)
  }

  lemma {:induction false} ValueOfShowNat(n: nat)
    ensures Value(ShowNat(n)) == n
  {
    var s := ShowNat(n);
    if n >= 10 {
      ValueOfShowNat(n / 10);
      assert s[..|s| - 1] == ShowNat(n / 10);
    }
  }

  lemma {:induction false} DigitsOfDigits(s: string)
    requires forall i :: 0 <= i < |s| ==> IsDigit(s[i])
    ensures DigitsOf(s) == s
  {
    if |s| > 0 {
      DigitsOfDigits(s[1..]);
      assert [s[0]] + s[1..] == s;
    }
  }

  /** A nonempty string without space at either end is left as it is by stripping. */
  lemma StripPlain(s: string)
    requires |s| > 0 && !IsSpace(s[0]) && !IsSpace(s[|s| - 1])
    ensures Strip(s) == s
  {
    assert StripStart(s) == s;
  }

  /** A run of plain digits, read without a sign, gives its value. */
  lemma UnsignedDigits(s: string)
    requires |s| > 0 && forall i :: 0 <= i < |s| ==> IsDigit(s[i])
    ensures ParseUnsigned(s) == Some(Value(s))
  {
    assert DigitRun(s);
    DigitsOfDigits(s);
  }

  /** A run of plain digits parses to its value. */
  lemma ParseDigits(s: string)
    requires |s| > 0 && forall i :: 0 <= i < |s| ==> IsDigit(s[i])
    ensures ParseInt(s) == Some(Value(s))
  {
    assert IsDigit(s[0]) && IsDigit(s[|s| - 1]);
    StripPlain(s);
    UnsignedDigits(s);
  }

  /** A minus sign before a run of plain digits negates its value. */
  lemma ParseNegatedDigits(t: string)
    requires |t| > 1 && t[0] == '-'
    requires forall i :: 1 <= i < |t| ==> IsDigit(t[i])
    ensures ParseInt(t) == Some(-(Value(t[1..]) as int))
  {
    assert Strip(t) == t by {
      assert IsDigit(t[|t| - 1]);
      StripPlain(t);
    }
    assert ParseUnsigned(t[1..]) == Some(Value(t[1..])) by {
      UnsignedDigits(t[1..]);
    }
    ParseNegative(t);
  }

  /** A stripped token starting with a minus sign parses to the negated value of the rest. */
  lemma ParseNegative(t: string)
    requires Strip(t) == t && |t| > 0 && t[0] == '-' && ParseUnsigned(t[1..]).Some?
    ensures ParseInt(t) == Some(-(ParseUnsigned(t[1..]).value as int))
  {
  }

  /** The rendering of a negative number: a minus sign, then the digits of its magnitude. */
  lemma ShowNegative(n: int)
    requires n < 0
    ensures |Show(n)| > 1 && Show(n)[0] == '-' && Show(n)[1..] == ShowNat(-n)
    ensures forall i :: 1 <= i < |Show(n)| ==> IsDigit(Show(n)[i])
  {
    var s := ShowNat(-n);
    assert Show(n) == "-" + s;
    forall i | 1 <= i < |Show(n)|
      ensures IsDigit(Show(n)[i])
    {
      assert Show(n)[i] == s[i - 1];
    }
  }

  lemma ParseShowNegative(n: int)
    requires n < 0
    ensures ParseInt(Show(n)) == Some(n)
  {
    ShowNegative(n);
    ParseNegatedDigits(Show(n));
    ValueOfShowNat(-n);
  }

  lemma ParseShowNonNegative(n: nat)
    ensures ParseInt(Show(n)) == Some(n)
  {
    ParseDigits(ShowNat(n));
    ValueOfShowNat(n);
  }

  /** `int(str(n)) == n`: every integer's decimal rendering parses back to it. */
  lemma ParseShow(n: int)
    ensures ParseInt(Show(n)) == Some(n)
  {
    if n < 0 {
      ParseShowNegative(n);
    } else {
      ParseShowNonNegative(n);
    }
  }

  /** A non-space character survives stripping. */
  lemma {:induction false} StripKeeps(s: string, c: char)
    requires c in s && !IsSpace(c)
    ensures c in Strip(s)
  {
    StripStartKeeps(s, c);
    StripEndKeeps(StripStart(s), c);
  }

  lemma {:induction false} StripStartKeeps(s: string, c: char)
    requires c in s && !IsSpace(c)
    ensures c in StripStart(s)
  {
    if |s| > 0 && IsSpace(s[0]) {
      assert c in s[1..];
      StripStartKeeps(s[1..], c);
    }
  }

  lemma {:induction false} StripEndKeeps(s: string, c: char)
    requires c in s && !IsSpace(c)
    ensures c in StripEnd(s)
  {
    if |s| > 0 && IsSpace(s[|s| - 1]) {
      assert c in s[..|s| - 1];
      StripEndKeeps(s[..|s| - 1], c);
    }
  }

  /**
    A token holding a character that is no digit, underscore, sign or space
    (a decimal point, a letter: "1.5", "NaN") is not an integer.
   */
  lemma ParseRejectsForeign(token: string, c: char)
    requires c in token
    requires !IsDigit(c) && c != '_' && c != '+' && c != '-' && !IsSpace(c)
    ensures ParseInt(token) == None
  {
    StripKeeps(token, c);
    var t := Strip(token);
    if |t| > 0 && (t[0] == '-' || t[0] == '+') {
      assert c in t[1..];
    }
  }

  /** An empty or blank token, as ",".split(",") or "".split(",") produce, is not an integer either. */
  lemma ParseRejectsBlank(token: string)
    requires forall i :: 0 <= i < |token| ==> IsSpace(token[i])
    ensures ParseInt(token) == None
  {
    BlankStrips(token);
  }

  lemma {:induction false} BlankStrips(s: string)
    requires forall i :: 0 <= i < |s| ==> IsSpace(s[i])
    ensures StripStart(s) == []
  {
    if |s| > 0 {
      BlankStrips(s[1..]);
    }
  }
}
