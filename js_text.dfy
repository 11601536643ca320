/** The three pieces of the JavaScript runtime the widget uses on text: `parseInt(s, 10)`,
    the decimal rendering of an integer in a template literal, and `String.prototype.split`
    with a one-character separator. */
module JsText {
  import opened Wrappers

  predicate IsDigit(c: char) {
    '0' <= c <= '9'
  }

  /** ECMAScript WhiteSpace and LineTerminator: what `parseInt` skips before the number. */
  predicate IsJsSpace(c: char) {
    c == ' ' || c == '\t' || c == '\n' || c == '\r' || c == '\U{B}' || c == '\U{C}' ||
    c == '\U{A0}' || c == '\U{1680}' || ('\U{2000}' <= c <= '\U{200A}') ||
    c == '\U{2028}' || c == '\U{2029}' || c == '\U{202F}' || c == '\U{205F}' ||
    c == '\U{3000}' || c == '\U{FEFF}'
  }

  predicate AllDigits(s: string) {
    forall i :: 0 <= i < |s| ==> IsDigit(s[i])
  }

  /** `s` with its leading white space removed. */
  function SkipSpaces(s: string): (r: string)
    ensures |r| <= |s|
    ensures r == [] || !IsJsSpace(r[0])
    ensures !(|s| > 0 && IsJsSpace(s[0])) ==> r == s
    decreases |s|
  {
    if |s| > 0 && IsJsSpace(s[0]) then SkipSpaces(s[1..]) else s
  }

  /** The length of the run of decimal digits that `s` starts with. */
  function LeadingDigits(s: string): (n: nat)
    ensures n <= |s| && forall i :: 0 <= i < n ==> IsDigit(s[i])
    ensures n == |s| || !IsDigit(s[n])
    decreases |s|
  {
    if |s| > 0 && IsDigit(s[0]) then 1 + LeadingDigits(s[1..]) else 0
  }

  /** The value of a string of decimal digits, most significant first. */
  function DigitsValue(ds: string): int
    decreases |ds|
  {
    if ds == [] then 0
    else DigitsValue(ds[..|ds| - 1]) * 10 + (ds[|ds| - 1] as int - '0' as int)
  }

  /** `t` without a leading `+` or `-`. */
  function DropSign(t: string): (u: string)
    ensures u == t || (|t| > 0 && (t[0] == '+' || t[0] == '-') && u == t[1..])
  {
    if |t| > 0 && (t[0] == '+' || t[0] == '-') then t[1..] else t
  }

  /** `parseInt(s, 10)`: skip white space, take an optional sign and the longest run of
      digits; no digit at all is `NaN`, here `None`. Text after the digits is ignored. */
  function ParseInt(s: string): (r: Option<int>)
    ensures r.None? <==> LeadingDigits(DropSign(SkipSpaces(s))) == 0
  {
    var t := SkipSpaces(s);
    var u := DropSign(t);
    var n := LeadingDigits(u);
    if n == 0 then None
    else
      var v := DigitsValue(u[..n]);
      if t[0] == '-' then Some(-v) else Some(v)
  }

  function DigitChar(d: int): (c: char)
    requires 0 <= d < 10
    ensures IsDigit(c) && c as int - '0' as int == d
  {
    ('0' as int + d) as char
  }

  /** The shortest decimal rendering of a natural number. */
  function NatToString(n: nat): (s: string)
    ensures |s| > 0
    decreases n
  {
    if n < 10 then [DigitChar(n)] else NatToString(n / 10) + [DigitChar(n % 10)]
  }

  /** A rendering is all digits, has no leading zero, and its digits are worth the number. */
  lemma {:induction false} NatToStringDigits(n: nat)
    ensures AllDigits(NatToString(n))
    ensures NatToString(n)[0] != '0' || n == 0
    ensures DigitsValue(NatToString(n)) == n
    decreases n
  {
    if n >= 10 {
      var prefix := NatToString(n / 10);
      var s := NatToString(n);
      NatToStringDigits(n / 10);
      assert s[..|s| - 1] == prefix;
    }
  }

  /** `${n}` for an integer `n`: a minus sign for negatives, then the digits. */
  function IntToString(n: int): (s: string)
    ensures |s| > 0
  {
    if n < 0 then "-" + NatToString(-n) else NatToString(n)
  }

  lemma {:induction false} LeadingDigitsOfDigits(ds: string, rest: string)
    requires AllDigits(ds)
    requires rest == [] || !IsDigit(rest[0])
    ensures LeadingDigits(ds + rest) == |ds|
    decreases |ds|
  {
    if ds == [] {
      assert ds + rest == rest;
    } else {
      assert (ds + rest)[1..] == ds[1..] + rest;
      LeadingDigitsOfDigits(ds[1..], rest);
    }
  }

  /** `parseInt` of digits followed by text that does not start with a digit is the digits'
      value. */
  lemma ParseIntOfDigits(ds: string, rest: string)
    requires |ds| > 0 && AllDigits(ds)
    requires rest == [] || !IsDigit(rest[0])
    ensures ParseInt(ds + rest) == Some(DigitsValue(ds))
  {
    var s := ds + rest;
    assert s[0] == ds[0];
    assert SkipSpaces(s) == s && DropSign(s) == s;
    LeadingDigitsOfDigits(ds, rest);
    assert s[..|ds|] == ds;
  }

  /** A minus sign in front of a digit negates what `parseInt` reads. */
  lemma ParseIntNegate(x: string)
    requires |x| > 0 && IsDigit(x[0])
    ensures ParseInt(x).Some? && ParseInt("-" + x).Some?
    ensures ParseInt("-" + x).value == -ParseInt(x).value
  {
    var s := "-" + x;
    assert s[0] == '-' && s[1..] == x;
    assert SkipSpaces(x) == x && DropSign(x) == x;
    assert SkipSpaces(s) == s && DropSign(s) == x;
  }

  /** With a minus sign in front, the value is negated. */
  lemma ParseIntOfNegativeDigits(ds: string, rest: string)
    requires |ds| > 0 && AllDigits(ds)
    requires rest == [] || !IsDigit(rest[0])
    ensures ParseInt("-" + (ds + rest)).Some?
    ensures ParseInt("-" + (ds + rest)).value == -DigitsValue(ds)
  {
    var x := ds + rest;
    ParseIntOfDigits(ds, rest);
    assert x[0] == ds[0];
    ParseIntNegate(x);
  }

  /** `parseInt` reads back what an integer renders to, whatever non-digit text follows. */
  lemma ParseIntOfIntToString(n: int, rest: string)
    requires rest == [] || !IsDigit(rest[0])
    ensures ParseInt(IntToString(n) + rest).Some?
    ensures ParseInt(IntToString(n) + rest).value == n
  {
    if n < 0 {
      var ds := NatToString(-n);
      NatToStringDigits(-n);
      assert IntToString(n) + rest == "-" + (ds + rest);
      ParseIntOfNegativeDigits(ds, rest);
    } else {
      NatToStringDigits(n);
      ParseIntOfDigits(NatToString(n), rest);
    }
  }

  /** Skipping white space in front of text that already starts past its white space. */
  lemma {:induction false} SkipSpacesPrefix(w: string, s: string)
    requires forall i :: 0 <= i < |w| ==> IsJsSpace(w[i])
    ensures SkipSpaces(w + s) == SkipSpaces(s)
    decreases |w|
  {
    if w != [] {
      assert (w + s)[0] == w[0];
      assert (w + s)[1..] == w[1..] + s;
      SkipSpacesPrefix(w[1..], s);
    } else {
      assert w + s == s;
    }
  }

  /** Leading white space does not change what `parseInt` reads. */
  lemma ParseIntSkipsSpace(w: string, s: string)
    requires forall i :: 0 <= i < |w| ==> IsJsSpace(w[i])
    ensures ParseInt(w + s) == ParseInt(s)
  {
    SkipSpacesPrefix(w, s);
  }

  /** A plus sign in front of a digit does not change what `parseInt` reads. */
  lemma ParseIntPlus(x: string)
    requires |x| > 0 && IsDigit(x[0])
    ensures ParseInt("+" + x) == ParseInt(x)
  {
    var s := "+" + x;
    assert s[0] == '+' && s[1..] == x;
    assert SkipSpaces(x) == x && DropSign(x) == x;
    assert SkipSpaces(s) == s && DropSign(s) == x;
  }

  /** `parseInt` stops at the first character that is not a digit. */
  lemma ParseIntTrailingLetters()
    ensures ParseInt("2024abc") == Some(2024)
  {
    var s := "2024abc";
    assert !IsJsSpace(s[0]) && SkipSpaces(s) == s && DropSign(s) == s;
    LeadingDigitsOfDigits("2024", "abc");
    assert "2024" + "abc" == s && s[..4] == "2024";
    assert "2024"[..3] == "202" && "202"[..2] == "20" && "20"[..1] == "2";
    assert DigitsValue("2") == 2 && DigitsValue("20") == 20;
    assert DigitsValue("202") == 202 && DigitsValue("2024") == 2024;
  }

  /** A decimal point ends the number too: "3.5" reads as 3. */
  lemma ParseIntDecimalPoint()
    ensures ParseInt("3.5") == Some(3)
  {
    var t := "3.5";
    assert !IsJsSpace(t[0]) && SkipSpaces(t) == t && DropSign(t) == t;
    LeadingDigitsOfDigits("3", ".5");
    assert "3" + ".5" == t && t[..1] == "3";
    assert DigitsValue("3") == 3;
  }

  /** Text that starts with a letter is `NaN`. */
  lemma ParseIntNoDigits()
    ensures ParseInt("bad-input") == None
  {
    var u := "bad-input";
    assert !IsJsSpace(u[0]) && SkipSpaces(u) == u && DropSign(u) == u;
  }

  /** `parts` joined with `sep` between neighbours: the inverse of `Split`. */
  function Join(parts: seq<string>, sep: char): string
    decreases |parts|
  {
    if parts == [] then []
    else if |parts| == 1 then parts[0]
    else parts[0] + [sep] + Join(parts[1..], sep)
  }

  /** `s.split(sep)` for a one-character separator: the maximal pieces between separators,
      empty pieces included; the empty string gives one empty piece. */
  function Split(s: string, sep: char): (parts: seq<string>)
    ensures |parts| >= 1
    ensures forall i :: 0 <= i < |parts| ==> sep !in parts[i]
    decreases |s|
  {
    if s == [] then [[]]
    else
      var rest := Split(s[1..], sep);
      if s[0] == sep then [[]] + rest
      else [[s[0]] + rest[0]] + rest[1..]
  }

  /** Joining the pieces of a split gives back the text. */
  lemma {:induction false} JoinSplit(s: string, sep: char)
    ensures Join(Split(s, sep), sep) == s
    decreases |s|
  {
    if s != [] {
      var rest := Split(s[1..], sep);
      JoinSplit(s[1..], sep);
      if s[0] == sep {
        assert Join([[]] + rest, sep) == [] + [sep] + Join(rest, sep);
      } else {
        var parts := [[s[0]] + rest[0]] + rest[1..];
        assert parts[1..] == rest[1..];
        if |rest| > 1 {
          assert Join(rest, sep) == rest[0] + [sep] + Join(rest[1..], sep);
        }
      }
      assert [s[0]] + s[1..] == s;
    }
  }

  /** Splitting text that starts with a separator-free piece. */
  lemma {:induction false} SplitCons(p: string, tail: string, sep: char)
    requires sep !in p
    ensures Split(p + tail, sep) == [p + Split(tail, sep)[0]] + Split(tail, sep)[1..]
    decreases |p|
  {
    if p == [] {
      var parts := Split(tail, sep);
      assert p + tail == tail && p + parts[0] == parts[0];
      assert [parts[0]] + parts[1..] == parts;
    } else {
      assert (p + tail)[1..] == p[1..] + tail;
      SplitCons(p[1..], tail, sep);
      assert [p[0]] + (p[1..] + Split(tail, sep)[0]) == p + Split(tail, sep)[0];
    }
  }

  /** `Split` undoes `Join` on pieces that hold no separator. */
  lemma {:induction false} SplitJoin(parts: seq<string>, sep: char)
    requires |parts| >= 1
    requires forall i :: 0 <= i < |parts| ==> sep !in parts[i]
    ensures Split(Join(parts, sep), sep) == parts
    decreases |parts|
  {
    if |parts| == 1 {
      SplitCons(parts[0], [], sep);
      assert parts[0] + [] == parts[0];
    } else {
      var tail := Join(parts[1..], sep);
      SplitJoin(parts[1..], sep);
      assert Split([sep] + tail, sep) == [[]] + Split(tail, sep);
      assert parts[0] + [sep] + tail == parts[0] + ([sep] + tail);
      SplitCons(parts[0], [sep] + tail, sep);
      assert Split([sep] + tail, sep)[0] == [] && Split([sep] + tail, sep)[1..] == parts[1..];
      assert parts[0] + [] == parts[0];
      assert [parts[0]] + parts[1..] == parts;
    }
  }
}
