/** The few JavaScript string operations the backend relies on: radix rendering of
    numbers (`Number.prototype.toString(radix)`), `toUpperCase`, `substring`,
    `startsWith` and `split`. */
module Text {

  /** Digit `d` as `toString(radix)` renders it: `0`-`9`, then `a`-`z`. */
  function DigitChar(d: nat): char
    requires d < 36
  {
    if d < 10 then ('0' as int + d) as char else ('a' as int + d - 10) as char
  }

  /** An ASCII letter or decimal digit. */
  predicate IsAlnum(c: char) {
    ('0' <= c <= '9') || ('a' <= c <= 'z') || ('A' <= c <= 'Z')
  }

  /** True when every character of `s` is an ASCII letter or digit. */
  predicate AllAlnum(s: string) {
    forall i | 0 <= i < |s| :: IsAlnum(s[i])
  }

  /** A character that is not a letter or digit does not occur in alphanumeric text. */
  lemma AlnumExcludes(s: string, c: char)
    requires AllAlnum(s)
    requires !IsAlnum(c)
    ensures c !in s
  {
    forall i | 0 <= i < |s| ensures s[i] != c {
      assert IsAlnum(s[i]);
    }
  }

  /** The value of a base-36 digit, either case; 0 for anything else. */
  function DigitValue(c: char): nat {
    if '0' <= c <= '9' then c as int - '0' as int
    else if 'a' <= c <= 'z' then c as int - 'a' as int + 10
    else if 'A' <= c <= 'Z' then c as int - 'A' as int + 10
    else 0
  }

  /** `toUpperCase` on one character; only ASCII letters occur in the strings modelled. */
  function ToUpper(c: char): char {
    if 'a' <= c <= 'z' then (c as int - 32) as char else c
  }

  /** `String.prototype.toUpperCase` on ASCII text. */
  function Upper(s: string): (r: string)
    ensures |r| == |s|
    ensures forall i | 0 <= i < |s| :: !('a' <= r[i] <= 'z')
    ensures forall i | 0 <= i < |s| :: 'a' <= s[i] <= 'z' ==> r[i] as int == s[i] as int - 32
    ensures forall i | 0 <= i < |s| :: !('a' <= s[i] <= 'z') ==> r[i] == s[i]
  {
    seq(|s|, i requires 0 <= i < |s| => ToUpper(s[i]))
  }

  lemma DivMod(n: nat, radix: nat)
    requires 2 <= radix
    ensures 0 <= n % radix < radix
    ensures (n / radix) * radix + n % radix == n
    ensures n >= radix ==> 1 <= n / radix < n
  {
    var q, m := n / radix, n % radix;
    assert q * radix + m == n;
    if n >= radix {
      assert q >= 1;
      assert q * radix >= q * 2;
    }
  }

  /** `n.toString(radix)` for a non-negative integer `n`. */
  function Show(n: nat, radix: nat): (r: string)
    requires 2 <= radix <= 36
    ensures |r| >= 1
    ensures AllAlnum(r)
    decreases n
  {
    if n < radix then [DigitChar(n)]
    else
      DivMod(n, radix);
      Show(n / radix, radix) + [DigitChar(n % radix)]
  }

  /** Reads `s` as a numeral in base `radix`, most significant digit first. */
  function Parse(s: string, radix: nat): nat
    decreases |s|
  {
    if |s| == 0 then 0 else Parse(s[..|s| - 1], radix) * radix + DigitValue(s[|s| - 1])
  }

  lemma DigitRoundTrip(d: nat)
    requires d < 36
    ensures DigitValue(DigitChar(d)) == d
    ensures DigitValue(ToUpper(DigitChar(d))) == d
  {
  }

  lemma ParseSnoc(s: string, c: char, radix: nat)
    ensures Parse(s + [c], radix) == Parse(s, radix) * radix + DigitValue(c)
  {
    assert (s + [c])[..|s + [c]| - 1] == s;
  }

  /** Reading back a rendered number gives the number: the rendering loses nothing. */
  lemma {:induction false} ParseShow(n: nat, radix: nat)
    requires 2 <= radix <= 36
    ensures Parse(Show(n, radix), radix) == n
    decreases n
  {
    if n < radix {
      DigitRoundTrip(n);
      ParseSnoc("", DigitChar(n), radix);
      assert [DigitChar(n)] == "" + [DigitChar(n)];
    } else {
      DivMod(n, radix);
      var q, m := n / radix, n % radix;
      ParseShow(q, radix);
      DigitRoundTrip(m);
      assert Show(n, radix) == Show(q, radix) + [DigitChar(m)];
      ParseSnoc(Show(q, radix), DigitChar(m), radix);
      assert Parse(Show(n, radix), radix) == q * radix + m;
    }
  }

  /** Upper-casing does not change the value a numeral denotes. */
  lemma {:induction false} ParseUpper(s: string, radix: nat)
    ensures Parse(Upper(s), radix) == Parse(s, radix)
    decreases |s|
  {
    if |s| > 0 {
      var init := s[..|s| - 1];
      assert Upper(s) == Upper(init) + [ToUpper(s[|s| - 1])];
      ParseUpper(init, radix);
      ParseSnoc(Upper(init), ToUpper(s[|s| - 1]), radix);
    }
  }

  /** Distinct numbers render as distinct upper-cased numerals. */
  lemma UpperShowInjective(m: nat, n: nat, radix: nat)
    requires 2 <= radix <= 36
    requires Upper(Show(m, radix)) == Upper(Show(n, radix))
    ensures m == n
  {
    ParseUpper(Show(m, radix), radix);
    ParseUpper(Show(n, radix), radix);
    ParseShow(m, radix);
    ParseShow(n, radix);
  }

  /** Distinct numbers render as distinct numerals. */
  lemma ShowInjective(m: nat, n: nat, radix: nat)
    requires 2 <= radix <= 36
    requires Show(m, radix) == Show(n, radix)
    ensures m == n
  {
    ParseShow(m, radix);
    ParseShow(n, radix);
  }

  /** `${name[0].toUpperCase()}${i}`: the label given to the `i`-th unit of a class or type. */
  function UnitLabel(name: string, i: nat): (r: string)
    requires |name| >= 1
  {
    [ToUpper(name[0])] + Show(i, 10)
  }

  /** Two labels agree only when their initials agree and their numbers agree. */
  lemma UnitLabelInjective(a: string, i: nat, b: string, j: nat)
    requires |a| >= 1 && |b| >= 1
    requires UnitLabel(a, i) == UnitLabel(b, j)
    ensures ToUpper(a[0]) == ToUpper(b[0])
    ensures i == j
  {
    assert UnitLabel(a, i)[0] == ToUpper(a[0]);
    assert UnitLabel(a, i)[1..] == Show(i, 10);
    assert UnitLabel(b, j)[1..] == Show(j, 10);
    ShowInjective(i, j, 10);
  }

  /** Labels with different initials or different numbers differ. */
  lemma UnitLabelDistinct(a: string, i: nat, b: string, j: nat)
    requires |a| >= 1 && |b| >= 1
    requires ToUpper(a[0]) != ToUpper(b[0]) || i != j
    ensures UnitLabel(a, i) != UnitLabel(b, j)
  {
    if UnitLabel(a, i) == UnitLabel(b, j) {
      UnitLabelInjective(a, i, b, j);
    }
  }

  /** `s.substring(start, end)`: both bounds clamped to the length, swapped when reversed. */
  function Substring(s: string, start: nat, end: nat): (r: string)
    ensures |r| <= |s|
    ensures end <= |s| && start <= end ==> r == s[start..end]
  {
    var a := if start <= |s| then start else |s|;
    var b := if end <= |s| then end else |s|;
    if a <= b then s[a..b] else s[b..a]
  }

  /** `s.startsWith(prefix)`. */
  predicate StartsWith(s: string, prefix: string) {
    |prefix| <= |s| && s[..|prefix|] == prefix
  }

  /** `s.split(sep)` for a one-character separator: the maximal separator-free runs,
      empty runs included. */
  function Split(s: string, sep: char): (parts: seq<string>)
    ensures |parts| >= 1
    decreases |s|
  {
    if |s| == 0 then [""]
    else
      var rest := Split(s[1..], sep);
      if s[0] == sep then [""] + rest else [[s[0]] + rest[0]] + rest[1..]
  }

  /** No part of a split contains the separator. */
  lemma {:induction false} SplitPartsExcludeSep(s: string, sep: char)
    ensures forall k | 0 <= k < |Split(s, sep)| :: sep !in Split(s, sep)[k]
    decreases |s|
  {
    if |s| > 0 {
      SplitPartsExcludeSep(s[1..], sep);
    }
  }

  /** A string without the separator splits into itself. */
  lemma {:induction false} SplitWhole(s: string, sep: char)
    requires sep !in s
    ensures Split(s, sep) == [s]
    decreases |s|
  {
    if |s| > 0 {
      assert sep !in s[1..] by {
        forall i | 0 <= i < |s[1..]| ensures s[1..][i] != sep {
          assert s[1..][i] == s[i + 1];
        }
      }
      SplitWhole(s[1..], sep);
      assert [s[0]] + s[1..] == s;
    }
  }

  /** Splitting `a + sep + b` with a separator-free `a` yields `a` followed by the parts of `b`. */
  lemma {:induction false} SplitJoin(a: string, b: string, sep: char)
    requires sep !in a
    ensures Split(a + [sep] + b, sep) == [a] + Split(b, sep)
    decreases |a|
  {
    var s := a + [sep] + b;
    if |a| == 0 {
      assert s[1..] == b;
    } else {
      assert s[1..] == a[1..] + [sep] + b;
      assert sep !in a[1..] by {
        forall i | 0 <= i < |a[1..]| ensures a[1..][i] != sep {
          assert a[1..][i] == a[i + 1];
        }
      }
      SplitJoin(a[1..], b, sep);
      assert [a[0]] + a[1..] == a;
    }
  }
}
