/** The string and number conversions the viewer relies on: `String.prototype.split`,
    `parseInt`, integer `toString`, `padStart` and the duration label of `formatDuration`. */
module Text {
  import opened Wrappers

  // ---------------------------------------------------------------- split / join

  /** `s.split(sep)` for a one-character separator: the pieces between separators,
      always at least one (the empty string splits to `[""]`). */
  function Split(s: string, sep: char): (parts: seq<string>)
    ensures |parts| >= 1
    ensures forall i :: 0 <= i < |parts| ==> sep !in parts[i]
  {
    if s == [] then [[]]
    else
      var rest := Split(s[1..], sep);
      if s[0] == sep then [[]] + rest else [[s[0]] + rest[0]] + rest[1..]
  }

  /** `parts.join(sep)`. */
  function JoinWith(parts: seq<string>, sep: char): string
    requires |parts| >= 1
  {
    if |parts| == 1 then parts[0] else parts[0] + [sep] + JoinWith(parts[1..], sep)
  }

  /** Joining the pieces of a split gives back the original string. */
  lemma {:induction false} SplitThenJoin(s: string, sep: char)
    ensures JoinWith(Split(s, sep), sep) == s
  {
    if s != [] {
      var rest := Split(s[1..], sep);
      SplitThenJoin(s[1..], sep);
      if s[0] != sep {
        if |rest| == 1 {
          assert [s[0]] + rest[0] == s;
        } else {
          assert JoinWith(Split(s, sep), sep) == [s[0]] + rest[0] + [sep] + JoinWith(rest[1..], sep);
          assert JoinWith(rest, sep) == rest[0] + [sep] + JoinWith(rest[1..], sep);
          assert [s[0]] + s[1..] == s;
        }
      } else {
        assert JoinWith(Split(s, sep), sep) == [] + [sep] + JoinWith(rest, sep);
        assert [s[0]] + s[1..] == s;
      }
    }
  }

  /** A separator-free string splits to itself, and a separator ends the first piece. */
  lemma {:induction false} SplitAfterPiece(a: string, sep: char, rest: string)
    requires sep !in a
    ensures Split(a, sep) == [a]
    ensures Split(a + [sep] + rest, sep) == [a] + Split(rest, sep)
  {
    if a != [] {
      SplitAfterPiece(a[1..], sep, rest);
      assert (a + [sep] + rest)[1..] == a[1..] + [sep] + rest;
      assert [a[0]] + a[1..] == a;
    } else {
      assert a + [sep] + rest == [sep] + rest;
      assert ([sep] + rest)[1..] == rest;
    }
  }

  /** Splitting a join of separator-free pieces gives back the pieces. */
  lemma {:induction false} JoinThenSplit(parts: seq<string>, sep: char)
    requires |parts| >= 1
    requires forall i :: 0 <= i < |parts| ==> sep !in parts[i]
    ensures Split(JoinWith(parts, sep), sep) == parts
  {
    if |parts| == 1 {
      SplitAfterPiece(parts[0], sep, []);
    } else {
      JoinThenSplit(parts[1..], sep);
      SplitAfterPiece(parts[0], sep, JoinWith(parts[1..], sep));
      assert [parts[0]] + parts[1..] == parts;
    }
  }

  // ---------------------------------------------------------------- integers as text

  predicate IsDigit(c: char)
  {
    '0' <= c <= '9'
  }

  predicate AllDigits(s: string)
  {
    forall i :: 0 <= i < |s| ==> IsDigit(s[i])
  }

  function DigitValue(c: char): nat
    requires IsDigit(c)
  {
    c as int - '0' as int
  }

  function DigitChar(d: nat): (c: char)
    requires d < 10
    ensures IsDigit(c) && DigitValue(c) == d
  {
    ('0' as int + d) as char
  }

  /** Decimal digits of a natural number, most significant first, without leading zeros. */
  function NatToString(n: nat): (s: string)
    ensures 1 <= |s| && AllDigits(s)
    ensures |s| > 1 ==> s[0] != '0'
  {
    if n < 10 then [DigitChar(n)] else NatToString(n / 10) + [DigitChar(n % 10)]
  }

  /** An integer-valued number's `toString()`. */
  function IntToString(n: int): (s: string)
  {
    if n < 0 then "-" + NatToString(-n) else NatToString(n)
  }

  /** The value of a string of decimal digits. */
  function DigitsValue(ds: string): nat
    requires AllDigits(ds)
  {
    if ds == [] then 0 else DigitsValue(ds[..|ds| - 1]) * 10 + DigitValue(ds[|ds| - 1])
  }

  lemma {:induction false} NatToStringValue(n: nat)
    ensures DigitsValue(NatToString(n)) == n
  {
    if n >= 10 {
      NatToStringValue(n / 10);
      var s := NatToString(n);
      assert s[..|s| - 1] == NatToString(n / 10);
    }
  }

  /** The longest prefix of `s` made of decimal digits. */
  function LeadingDigits(s: string): (ds: string)
    ensures ds <= s && AllDigits(ds)
    ensures |ds| < |s| ==> !IsDigit(s[|ds|])
  {
    if s != [] && IsDigit(s[0]) then [s[0]] + LeadingDigits(s[1..]) else []
  }

  /** The white space `parseInt` skips: tab, vertical tab, form feed, the byte
      order mark, every space separator (Unicode category Zs) and the four line
      terminators, as the WhiteSpace and LineTerminator productions of ECMA-262
      list them. */
  predicate IsWhitespace(c: char)
  {
    c == '\t' || c == '\U{B}' || c == '\U{C}' || c == '\U{FEFF}'
    || c == ' ' || c == '\U{A0}' || c == '\U{1680}' || '\U{2000}' <= c <= '\U{200A}'
    || c == '\U{202F}' || c == '\U{205F}' || c == '\U{3000}'
    || c == '\n' || c == '\r' || c == '\U{2028}' || c == '\U{2029}'
  }

  function TrimStart(s: string): (r: string)
    ensures r == [] || !IsWhitespace(r[0])
    ensures |r| <= |s| && r == s[|s| - |r|..]
  {
    if s != [] && IsWhitespace(s[0]) then TrimStart(s[1..]) else s
  }

  /** `parseInt(text)` in base ten: leading white space, an optional sign, then the
      longest run of digits; `None` stands for `NaN`. */
  function ParseInt(text: string): (r: Option<int>)
  {
    ParseSigned(TrimStart(text))
  }

  /** White space before the number does not change what `parseInt` reads. */
  lemma ParseIntSkipsLeadingSpace(c: char, text: string)
    requires IsWhitespace(c)
    ensures ParseInt([c] + text) == ParseInt(text)
  {
    assert ([c] + text)[1..] == text;
  }

  /** An optional sign followed by the longest run of digits. */
  function ParseSigned(s: string): (r: Option<int>)
  {
    if s != [] && s[0] == '-' then Negate(ParseDigits(s[1..]))
    else if s != [] && s[0] == '+' then ParseDigits(s[1..])
    else ParseDigits(s)
  }

  function Negate(r: Option<int>): Option<int>
  {
    if r.Some? then Some(-r.value) else None
  }

  /** The value of the longest run of leading digits, `None` when there is none. */
  function ParseDigits(s: string): (r: Option<int>)
  {
    var ds := LeadingDigits(s);
    if ds == [] then None else Some(DigitsValue(ds) as int)
  }

  lemma {:induction false} LeadingDigitsOfDigits(s: string)
    requires AllDigits(s)
    ensures LeadingDigits(s) == s
  {
    if s != [] {
      LeadingDigitsOfDigits(s[1..]);
      assert [s[0]] + s[1..] == s;
    }
  }

  lemma ParseDigitsOfDigits(ds: string)
    requires ds != [] && AllDigits(ds)
    ensures ParseDigits(ds) == Some(DigitsValue(ds) as int)
  {
    LeadingDigitsOfDigits(ds);
  }

  /** Text that does not start with white space is not trimmed. */
  lemma TrimStartOfNonSpace(s: string)
    requires s != [] && !IsWhitespace(s[0])
    ensures TrimStart(s) == s
  {
  }

  /** `parseInt` of an unsigned run of digits is its value. */
  lemma ParseIntOfDigits(ds: string)
    requires ds != [] && AllDigits(ds)
    ensures ParseInt(ds) == Some(DigitsValue(ds) as int)
  {
    TrimStartOfNonSpace(ds);
    assert ParseSigned(ds) == ParseDigits(ds);
    ParseDigitsOfDigits(ds);
  }

  /** `parseInt` of a minus sign and a run of digits is the negated value. */
  lemma ParseIntOfNegatedDigits(ds: string)
    requires ds != [] && AllDigits(ds)
    ensures ParseInt("-" + ds) == Some(-(DigitsValue(ds) as int))
  {
    var s := "-" + ds;
    assert s[0] == '-' && s[1..] == ds;
    TrimStartOfNonSpace(s);
    ParseDigitsOfDigits(ds);
    assert ParseSigned(s) == Negate(Some(DigitsValue(ds) as int));
  }

  /** `parseInt` reads back every integer's `toString()`. */
  lemma {:induction false} ParseIntOfIntToString(n: int)
    ensures ParseInt(IntToString(n)) == Some(n)
  {
    var magnitude: nat := if n < 0 then -n else n;
    NatToStringValue(magnitude);
    if n < 0 {
      ParseIntOfNegatedDigits(NatToString(magnitude));
    } else {
      ParseIntOfDigits(NatToString(magnitude));
    }
  }

  /** `s.padStart(2, '0')`. */
  function PadStart2(s: string): (r: string)
    ensures |s| >= 2 ==> r == s
    ensures |s| < 2 ==> |r| == 2 && r[2 - |s|..] == s && forall i :: 0 <= i < 2 - |s| ==> r[i] == '0'
  {
    if |s| < 2 then seq(2 - |s|, _ => '0') + s else s
  }

  // ---------------------------------------------------------------- durations

  /** `Math.trunc` of a real. */
  function Trunc(x: real): int
  {
    if x >= 0.0 then x.Floor else -((-x).Floor)
  }

  /** JavaScript's `%` on numbers: the remainder keeps the sign of the dividend. */
  function JsRemainder(x: real, m: real): real
    requires m != 0.0
  {
    x - m * Trunc(x / m) as real
  }

  /** `formatDuration(seconds)`: whole minutes, a colon, and the remaining whole
      seconds padded to two digits. */
  function FormatDuration(seconds: real): (text: string)
  {
    DurationLabel((seconds / 60.0).Floor, JsRemainder(seconds, 60.0).Floor)
  }

  /** The label for whole minutes and remaining whole seconds. */
  function DurationLabel(minutes: int, secs: int): string
  {
    IntToString(minutes) + ":" + PadStart2(IntToString(secs))
  }

  /** Reads a `minutes:seconds` label back into a number of whole seconds. */
  function ParseDuration(text: string): Option<int>
  {
    DurationOfParts(Split(text, ':'))
  }

  function DurationOfParts(parts: seq<string>): Option<int>
  {
    if |parts| != 2 then None else CombineMinutes(ParseInt(parts[0]), ParseInt(parts[1]))
  }

  function CombineMinutes(minutes: Option<int>, secs: Option<int>): Option<int>
  {
    if minutes.Some? && secs.Some? then Some(minutes.value * 60 + secs.value) else None
  }

  /** For a non-negative duration the label shows `m` minutes and `r < 60` seconds
      with `m * 60 + r` the whole seconds. */
  lemma FormatDurationParts(seconds: real) returns (m: nat, r: nat)
    requires seconds >= 0.0
    ensures r < 60 && m * 60 + r == seconds.Floor
    ensures FormatDuration(seconds) == DurationLabel(m, r)
  {
    var minutes := (seconds / 60.0).Floor;
    assert minutes as real <= seconds / 60.0 < minutes as real + 1.0;
    assert 60.0 * minutes as real <= seconds < 60.0 * minutes as real + 60.0;
    assert Trunc(seconds / 60.0) == minutes;
    var rem := JsRemainder(seconds, 60.0);
    assert rem == seconds - 60.0 * minutes as real;
    assert 0.0 <= rem < 60.0;
    var f := seconds.Floor;
    assert f as real <= seconds < f as real + 1.0;
    assert rem.Floor == f - 60 * minutes;
    m, r := minutes, rem.Floor;
  }

  /** `parseInt` reads a two-digit padded number back. */
  lemma {:induction false} ParseIntOfPadded(r: nat)
    ensures ParseInt(PadStart2(NatToString(r))) == Some(r)
  {
    if r < 10 {
      var b := PadStart2(NatToString(r));
      assert b == ['0', DigitChar(r)];
      assert b[..1] == ['0'] && ['0'][..0] == [];
      assert DigitsValue(['0']) == 0;
      assert DigitsValue(b) == r;
      ParseIntOfDigits(b);
    } else {
      ParseIntOfIntToString(r);
    }
  }

  /** A label made of two colon-free pieces that parse as integers reads back as
      minutes and seconds. */
  lemma ParseDurationOfPieces(a: string, b: string, m: int, r: int)
    requires ':' !in a && ':' !in b
    requires ParseInt(a) == Some(m) && ParseInt(b) == Some(r)
    ensures ParseDuration(a + ":" + b) == Some(m * 60 + r)
  {
    SplitAfterPiece(a, ':', b);
    SplitAfterPiece(b, ':', []);
    var parts := Split(a + ":" + b, ':');
    assert parts == [a] + [b];
    assert parts[0] == a && parts[1] == b;
  }

  /** Digits and padded digits contain no colon. */
  lemma NoColonInDigits(s: string)
    requires AllDigits(s)
    ensures ':' !in s
  {
  }

  /** The label of `m` minutes and `r` seconds reads back as `m * 60 + r`. */
  lemma DurationLabelRoundTrip(m: nat, r: nat)
    ensures ParseDuration(DurationLabel(m, r)) == Some(m * 60 + r)
  {
    var a := NatToString(m);
    var b := PadStart2(NatToString(r));
    assert DurationLabel(m, r) == a + ":" + b;
    NoColonInDigits(a);
    assert AllDigits(b);
    NoColonInDigits(b);
    ParseIntOfIntToString(m);
    ParseIntOfPadded(r);
    ParseDurationOfPieces(a, b, m, r);
  }

  /** The duration label reads back to the whole number of seconds. */
  lemma FormatDurationRoundTrip(seconds: real)
    requires seconds >= 0.0
    ensures var parsed := ParseDuration(FormatDuration(seconds));
      parsed.Some? && parsed.value == seconds.Floor
  {
    var m, r := FormatDurationParts(seconds);
    DurationLabelRoundTrip(m, r);
  }
}
