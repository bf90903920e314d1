/** The JavaScript built-ins the alarm code leans on, restricted to integers and
    to the shapes the code uses: `split` on one character, `replace(/\D/g, "")`,
    `parseInt` and `Number` on decimal strings, `toString`, `padStart(2, "0")`,
    the truncating `%`, and `||` on numbers and on strings.
    `NaN` and `undefined` are both `None`. */
module JsText {
  import opened Wrappers

  predicate IsDigit(c: char) { '0' <= c <= '9' }

  function DigitValue(c: char): (v: nat)
    requires IsDigit(c)
    ensures v < 10
  {
    c as int - '0' as int
  }

  function DigitChar(d: nat): (c: char)
    requires d < 10
    ensures IsDigit(c) && DigitValue(c) == d
  {
    ('0' as int + d) as char
  }

  predicate AllDigits(s: string) { forall i :: 0 <= i < |s| ==> IsDigit(s[i]) }

  function Pow10(k: nat): (p: nat)
    ensures p >= 1
  {
    if k == 0 then 1 else 10 * Pow10(k - 1)
  }

  /** Decimal value of a string of digits, most significant digit first. */
  function DigitsValue(s: string): nat
    requires AllDigits(s)
  {
    if s == [] then 0 else DigitsValue(s[..|s| - 1]) * 10 + DigitValue(s[|s| - 1])
  }

  /** A string of k digits denotes a value below 10^k. */
  lemma {:induction false} DigitsValueBound(s: string)
    requires AllDigits(s)
    ensures DigitsValue(s) < Pow10(|s|)
  {
    if s != [] {
      var init := s[..|s| - 1];
      DigitsValueBound(init);
      assert DigitsValue(init) * 10 <= (Pow10(|init|) - 1) * 10;
    }
  }

  /** `n.toString()` for a non-negative integer: its decimal digits. */
  function NatToString(n: nat): (s: string)
    ensures |s| >= 1 && AllDigits(s)
  {
    if n < 10 then [DigitChar(n)] else NatToString(n / 10) + [DigitChar(n % 10)]
  }

  /** Reading back what `toString` wrote gives the number. */
  lemma {:induction false} NatToStringValue(n: nat)
    ensures DigitsValue(NatToString(n)) == n
  {
    if n >= 10 {
      var s := NatToString(n);
      assert s[..|s| - 1] == NatToString(n / 10);
      NatToStringValue(n / 10);
    }
  }

  /** A number with k digits prints as k characters. */
  lemma {:induction false} NatToStringLength(n: nat, k: nat)
    requires 1 <= k && Pow10(k - 1) <= n < Pow10(k)
    ensures |NatToString(n)| == k
  {
    if n >= 10 {
      assert Pow10(1) == 10;
      assert k >= 2;
      assert Pow10(k) == 10 * Pow10(k - 1) && Pow10(k - 1) == 10 * Pow10(k - 2);
      NatToStringLength(n / 10, k - 1);
    }
  }

  /** n with its last d decimal digits dropped. */
  function DropDigits(n: nat, d: nat): nat
  {
    if d == 0 then n else DropDigits(n / 10, d - 1)
  }

  /** Dropping the last d digits of a number drops the last d characters
      of its decimal text, as long as some digit is left. */
  lemma {:induction false} NatToStringDropDigits(n: nat, d: nat)
    requires DropDigits(n, d) > 0 || d == 0
    ensures |NatToString(DropDigits(n, d))| + d == |NatToString(n)|
    ensures NatToString(n)[..|NatToString(DropDigits(n, d))|] == NatToString(DropDigits(n, d))
  {
    if d > 0 {
      var q := n / 10;
      if q == 0 {
        assert DropDigits(0, d - 1) == 0 by { DropDigitsZero(d - 1); }
      }
      assert n >= 10;
      if d - 1 > 0 {
        NatToStringDropDigits(q, d - 1);
      }
      var p := NatToString(DropDigits(q, d - 1));
      assert NatToString(n) == NatToString(q) + [DigitChar(n % 10)];
      assert NatToString(n)[..|p|] == NatToString(q)[..|p|];
    }
  }

  lemma {:induction false} DropDigitsZero(d: nat)
    ensures DropDigits(0, d) == 0
  {
    if d > 0 {
      DropDigitsZero(d - 1);
    }
  }

  /** `n.toString()` for any integer. */
  function IntToString(n: int): string
  {
    if n < 0 then "-" + NatToString(-n) else NatToString(n)
  }

  /** `s.padStart(2, "0")`. */
  function PadStart2(s: string): string
  {
    if |s| == 0 then "00" else if |s| == 1 then "0" + s else s
  }

  /** `n.toString().padStart(2, "0")`. */
  function Pad2(n: int): string
  {
    PadStart2(IntToString(n))
  }

  /** For 0..99 the padded text is exactly two digits that read back as n. */
  lemma {:induction false} Pad2Value(n: int)
    requires 0 <= n < 100
    ensures |Pad2(n)| == 2 && AllDigits(Pad2(n)) && DigitsValue(Pad2(n)) == n
  {
    var s := NatToString(n);
    NatToStringValue(n);
    if n < 10 {
      assert Pad2(n) == ['0', s[0]];
      assert ['0', s[0]][..1] == ['0'];
    } else {
      assert Pow10(2) == 100 && Pow10(1) == 10;
      NatToStringLength(n, 2);
      assert Pad2(n) == s;
    }
  }

  /** Two in-range numbers pad to the same text only if they are equal. */
  lemma Pad2Injective(m: int, n: int)
    requires 0 <= m < 100 && 0 <= n < 100
    ensures Pad2(m) == Pad2(n) <==> m == n
  {
    Pad2Value(m);
    Pad2Value(n);
  }

  /** `s.split(sep)` for a one-character separator. */
  function Split(s: string, sep: char): (parts: seq<string>)
    ensures |parts| >= 1
    ensures forall i :: 0 <= i < |parts| ==> sep !in parts[i]
  {
    if s == [] then [""]
    else
      var rest := Split(s[1..], sep);
      if s[0] == sep then [""] + rest else [[s[0]] + rest[0]] + rest[1..]
  }

  /** `parts.join(sep)`, the inverse of `Split`. */
  function Join(parts: seq<string>, sep: char): string
    requires |parts| >= 1
  {
    if |parts| == 1 then parts[0] else parts[0] + [sep] + Join(parts[1..], sep)
  }

  /** Joining the parts of a split gives back the string. */
  lemma {:induction false} JoinSplit(s: string, sep: char)
    ensures Join(Split(s, sep), sep) == s
  {
    if s != [] {
      var rest := Split(s[1..], sep);
      JoinSplit(s[1..], sep);
      if s[0] != sep {
        var parts := [[s[0]] + rest[0]] + rest[1..];
        if |rest| == 1 {
          assert parts == [[s[0]] + rest[0]];
        } else {
          assert parts[1..] == rest[1..];
          assert Join(parts, sep) == [s[0]] + (rest[0] + [sep] + Join(rest[1..], sep));
        }
      }
    }
  }

  /** Splitting text that holds no separator gives it back whole. */
  lemma {:induction false} SplitNoSeparator(s: string, sep: char)
    requires sep !in s
    ensures Split(s, sep) == [s]
  {
    if s != [] {
      SplitNoSeparator(s[1..], sep);
      assert [s[0]] + s[1..] == s;
    }
  }

  /** Splitting at the first separator. */
  lemma {:induction false} SplitFirst(a: string, b: string, sep: char)
    requires sep !in a
    ensures Split(a + [sep] + b, sep) == [a] + Split(b, sep)
  {
    if a == [] {
      assert a + [sep] + b == [sep] + b;
      assert ([sep] + b)[1..] == b;
    } else {
      assert (a + [sep] + b)[1..] == a[1..] + [sep] + b;
      SplitFirst(a[1..], b, sep);
      assert [a[0]] + a[1..] == a;
    }
  }

  /** Two numbers padded to two digits and joined by ":", the "HH:MM" text
      that `toTimeString().slice(0, 5)` and the time picker produce. */
  function HhMm(h: int, m: int): string
  {
    Pad2(h) + ":" + Pad2(m)
  }

  /** Splitting an in-range "HH:MM" text at ":" gives the two padded numbers. */
  lemma HhMmParts(h: int, m: int)
    requires 0 <= h < 100 && 0 <= m < 100
    ensures Split(HhMm(h, m), ':') == [Pad2(h), Pad2(m)]
    ensures AllDigits(Pad2(h)) && AllDigits(Pad2(m)) && |Pad2(h)| == 2 && |Pad2(m)| == 2
    ensures DigitsValue(Pad2(h)) == h && DigitsValue(Pad2(m)) == m
  {
    Pad2Value(h);
    Pad2Value(m);
    assert ':' !in Pad2(h) && ':' !in Pad2(m) by {
      assert !IsDigit(':');
    }
    SplitFirst(Pad2(h), Pad2(m), ':');
    SplitNoSeparator(Pad2(m), ':');
    assert HhMm(h, m) == Pad2(h) + [':'] + Pad2(m);
  }

  /** Two in-range "HH:MM" texts are equal only for equal numbers. */
  lemma HhMmInjective(h1: int, m1: int, h2: int, m2: int)
    requires 0 <= h1 < 100 && 0 <= m1 < 100 && 0 <= h2 < 100 && 0 <= m2 < 100
    ensures HhMm(h1, m1) == HhMm(h2, m2) <==> h1 == h2 && m1 == m2
  {
    HhMmParts(h1, m1);
    HhMmParts(h2, m2);
    if HhMm(h1, m1) == HhMm(h2, m2) {
      Pad2Injective(h1, h2);
      Pad2Injective(m1, m2);
    }
  }

  /** `s.replace(/\D/g, "")`: the digits of s, in order. */
  function StripNonDigits(s: string): (d: string)
    ensures AllDigits(d) && |d| <= |s|
  {
    if s == [] then [] else (if IsDigit(s[0]) then [s[0]] else []) + StripNonDigits(s[1..])
  }

  /** Stripping text that has only digits leaves it as it is. */
  lemma {:induction false} StripNonDigitsOfDigits(s: string)
    requires AllDigits(s)
    ensures StripNonDigits(s) == s
  {
    if s != [] {
      StripNonDigitsOfDigits(s[1..]);
    }
  }

  /** Stripping leaves nothing exactly when the text has no digit. */
  lemma {:induction false} StripNonDigitsEmpty(s: string)
    ensures StripNonDigits(s) == [] <==> forall i :: 0 <= i < |s| ==> !IsDigit(s[i])
  {
    if s != [] {
      StripNonDigitsEmpty(s[1..]);
      assert forall i :: 1 <= i < |s| ==> s[i] == s[1..][i - 1];
    }
  }

  /** The characters `parseInt` and `Number` skip as white space. */
  predicate IsJsSpace(c: char)
  {
    c == ' ' || c == '\t' || c == '\n' || c == '\r' || c == '\U{000B}' || c == '\U{000C}'
    || c == '\U{00A0}' || c == '\U{1680}' || ('\U{2000}' <= c <= '\U{200A}')
    || c == '\U{2028}' || c == '\U{2029}' || c == '\U{202F}' || c == '\U{205F}'
    || c == '\U{3000}' || c == '\U{FEFF}'
  }

  function TrimStart(s: string): (t: string)
    ensures |t| <= |s| && t == s[|s| - |t|..]
    ensures t == [] || !IsJsSpace(t[0])
  {
    if s != [] && IsJsSpace(s[0]) then TrimStart(s[1..]) else s
  }

  function TrimEnd(s: string): (t: string)
    ensures |t| <= |s| && t == s[..|t|]
    ensures t == [] || !IsJsSpace(t[|t| - 1])
  {
    if s != [] && IsJsSpace(s[|s| - 1]) then TrimEnd(s[..|s| - 1]) else s
  }

  /** The longest prefix of s made of digits. */
  function DigitPrefix(s: string): (d: string)
    ensures AllDigits(d) && d <= s
    ensures |d| < |s| ==> !IsDigit(s[|d|])
  {
    if s != [] && IsDigit(s[0]) then [s[0]] + DigitPrefix(s[1..]) else []
  }

  /** `parseInt(s)` with no radix, for decimal text: white space, a sign, then
      as many digits as there are; `None` (NaN) when there is no digit. */
  function ParseInt(s: string): Option<int>
  {
    var t := TrimStart(s);
    var body := if t != [] && (t[0] == '-' || t[0] == '+') then t[1..] else t;
    var digits := DigitPrefix(body);
    var v: int := if digits == [] then 0 else DigitsValue(digits);
    if digits == [] then None
    else if t[0] == '-' then Some(-v)
    else Some(v)
  }

  /** `Number(s)` for decimal integer text: surrounding white space is
      skipped, empty text is 0, anything else that is not a signed run of
      digits is `None` (NaN). */
  function ToNumber(s: string): Option<int>
  {
    var t := TrimEnd(TrimStart(s));
    if t == [] then Some(0)
    else
      var body := if t[0] == '-' || t[0] == '+' then t[1..] else t;
      if body != [] && AllDigits(body) then
        var v: int := DigitsValue(body);
        Some(if t[0] == '-' then -v else v)
      else None
  }

  /** A whole run of digits is its own digit prefix. */
  lemma {:induction false} DigitPrefixOfDigits(s: string)
    requires AllDigits(s)
    ensures DigitPrefix(s) == s
  {
    if s != [] {
      DigitPrefixOfDigits(s[1..]);
    }
  }

  lemma DigitNotSpace(c: char)
    requires IsDigit(c)
    ensures !IsJsSpace(c) && c != '-' && c != '+'
  {
  }

  lemma ParseIntDigits(s: string)
    requires AllDigits(s) && s != []
    ensures ParseInt(s) == Some(DigitsValue(s))
  {
    DigitNotSpace(s[0]);
    assert TrimStart(s) == s;
    DigitPrefixOfDigits(s);
  }

  lemma ToNumberDigits(s: string)
    requires AllDigits(s) && s != []
    ensures ToNumber(s) == Some(DigitsValue(s))
  {
    DigitNotSpace(s[0]);
    DigitNotSpace(s[|s| - 1]);
    assert TrimStart(s) == s;
    assert TrimEnd(s) == s;
  }

  /** `parseInt` and `Number` both read a non-empty run of digits as its
      decimal value, and `parseInt` reads empty text as NaN. */
  lemma ParseDigits(s: string)
    requires AllDigits(s)
    ensures s != [] ==> ParseInt(s) == Some(DigitsValue(s)) && ToNumber(s) == Some(DigitsValue(s))
    ensures s == [] ==> ParseInt(s) == None && ToNumber(s) == Some(0)
  {
    if s != [] {
      ParseIntDigits(s);
      ToNumberDigits(s);
    }
  }

  /** `x || fallback` for a number: 0 and NaN give the fallback. */
  function NumberOr(x: Option<int>, fallback: int): (r: int)
    ensures r == fallback || (x == Some(r) && r != 0)
    ensures (x.Some? && x.value != 0) ==> r == x.value
  {
    if x.Some? && x.value != 0 then x.value else fallback
  }

  /** `x || fallback` for an optional string: absent and "" give the fallback. */
  function StringOr(x: Option<string>, fallback: string): (r: string)
    ensures r == fallback || (x == Some(r) && r != "")
    ensures (x.Some? && x.value != "") ==> r == x.value
  {
    if x.Some? && x.value != "" then x.value else fallback
  }

  /** JavaScript's `a % b`, which takes the sign of the dividend. */
  function JsRem(a: int, b: int): (r: int)
    requires b > 0
    ensures a >= 0 ==> 0 <= r < b && r == a % b
    ensures a < 0 ==> -b < r <= 0 && -r == (-a) % b
  {
    if a >= 0 then a % b else -((-a) % b)
  }
}
