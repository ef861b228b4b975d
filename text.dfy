/** String helpers the script relies on through Python built-ins:
  * `<` on `str`, `str(n)`, `int(s)` on digit strings, `"%03d"` padding and `str.split`. */
module Text {

  // ---------------------------------------------------------------------------
  // Python's ordering of `str`: lexicographic by code point, a proper prefix first.
  // ---------------------------------------------------------------------------

  predicate StrLt(a: string, b: string)
  {
    if a == [] then b != []
    else if b == [] then false
    else a[0] < b[0] || (a[0] == b[0] && StrLt(a[1..], b[1..]))
  }

  predicate StrLe(a: string, b: string)
  {
    a == b || StrLt(a, b)
  }

  lemma {:induction false} StrLtIrreflexive(a: string)
    ensures !StrLt(a, a)
  {
    if a != [] {
      StrLtIrreflexive(a[1..]);
    }
  }

  lemma {:induction false} StrLtTransitive(a: string, b: string, c: string)
    requires StrLt(a, b) && StrLt(b, c)
    ensures StrLt(a, c)
  {
    if a != [] {
      if a[0] == b[0] && b[0] == c[0] {
        StrLtTransitive(a[1..], b[1..], c[1..]);
      }
    }
  }

  lemma {:induction false} StrLtTotal(a: string, b: string)
    ensures a == b || StrLt(a, b) || StrLt(b, a)
  {
    if a != [] && b != [] && a[0] == b[0] {
      StrLtTotal(a[1..], b[1..]);
      if a[1..] == b[1..] {
        assert a == [a[0]] + a[1..] && b == [b[0]] + b[1..];
      }
    }
  }

  /** `a` is a proper prefix of `b`. */
  predicate ProperPrefix(a: string, b: string)
  {
    |a| < |b| && a == b[..|a|]
  }

  /** `a` and `b` agree before position `k` and `a` has the smaller character there. */
  predicate FirstDifferenceLower(a: string, b: string, k: nat)
  {
    k < |a| && k < |b| && a[..k] == b[..k] && a[k] < b[k]
  }

  /** `StrLt` is the usual lexicographic order: `a` is a proper prefix of `b`, or `a` has the
    * smaller character at the first position where they differ. */
  lemma StrLtIsLexicographic(a: string, b: string)
    ensures StrLt(a, b) <==> ProperPrefix(a, b) || exists k: nat :: FirstDifferenceLower(a, b, k)
  {
    if StrLt(a, b) {
      LexicographicOfStrLt(a, b);
    }
    if ProperPrefix(a, b) {
      StrLtOfProperPrefix(a, b);
    }
    if k: nat :| FirstDifferenceLower(a, b, k) {
      StrLtOfFirstDifference(a, b, k);
    }
  }

  lemma {:induction false} LexicographicOfStrLt(a: string, b: string)
    requires StrLt(a, b)
    ensures ProperPrefix(a, b) || exists k: nat :: FirstDifferenceLower(a, b, k)
  {
    if a == [] {
      assert ProperPrefix(a, b);
    } else if a[0] < b[0] {
      assert FirstDifferenceLower(a, b, 0);
    } else {
      LexicographicOfStrLt(a[1..], b[1..]);
      if ProperPrefix(a[1..], b[1..]) {
        assert a == [a[0]] + a[1..] && b[..|a|] == [b[0]] + b[1..][..|a| - 1];
        assert ProperPrefix(a, b);
      } else {
        var k: nat :| FirstDifferenceLower(a[1..], b[1..], k);
        assert a[..k + 1] == [a[0]] + a[1..][..k] && b[..k + 1] == [b[0]] + b[1..][..k];
        assert FirstDifferenceLower(a, b, k + 1);
      }
    }
  }

  lemma {:induction false} StrLtOfProperPrefix(a: string, b: string)
    requires ProperPrefix(a, b)
    ensures StrLt(a, b)
  {
    if a != [] {
      assert a[0] == b[..|a|][0] == b[0];
      assert a[1..] == b[1..][..|a| - 1];
      StrLtOfProperPrefix(a[1..], b[1..]);
    }
  }

  lemma {:induction false} StrLtOfFirstDifference(a: string, b: string, k: nat)
    requires FirstDifferenceLower(a, b, k)
    ensures StrLt(a, b)
  {
    if k > 0 {
      assert a[0] == a[..k][0] == b[..k][0] == b[0];
      assert a[1..][..k - 1] == a[..k][1..] && b[1..][..k - 1] == b[..k][1..];
      StrLtOfFirstDifference(a[1..], b[1..], k - 1);
    }
  }

  lemma StrLtAsymmetric(a: string, b: string)
    requires StrLt(a, b)
    ensures !StrLt(b, a)
  {
    if StrLt(b, a) {
      StrLtTransitive(a, b, a);
      StrLtIrreflexive(a);
    }
  }

  // ---------------------------------------------------------------------------
  // Decimal digits
  // ---------------------------------------------------------------------------

  predicate IsDigit(c: char)
  {
    '0' <= c <= '9'
  }

  predicate IsDigits(s: string)
  {
    forall i :: 0 <= i < |s| ==> IsDigit(s[i])
  }

  function DigitValue(c: char): nat
    requires IsDigit(c)
  {
    c as int - '0' as int
  }

  function DigitChar(d: nat): (c: char)
    requires d < 10
    ensures IsDigit(c) && DigitValue(c) == d
  {
    (d + '0' as int) as char
  }

  /** The number a string of decimal digits denotes (leading zeros allowed, empty is 0). */
  function Value(s: string): nat
    requires IsDigits(s)
  {
    if s == [] then 0 else 10 * Value(s[..|s| - 1]) + DigitValue(s[|s| - 1])
  }

  /** Python's `str(n)` for a non-negative integer. */
  function NatToString(n: nat): (s: string)
    ensures s != [] && IsDigits(s) && Value(s) == n
    ensures |s| > 1 ==> s[0] != '0'
  {
    if n < 10 then [DigitChar(n)]
    else
      var s := NatToString(n / 10) + [DigitChar(n % 10)];
      assert s[..|s| - 1] == NatToString(n / 10);
      s
  }

  function Zeros(k: nat): (z: string)
    ensures |z| == k && IsDigits(z)
  {
    seq(k, _ => '0')
  }

  lemma {:induction false} LeadingZerosValue(k: nat, s: string)
    requires IsDigits(s)
    ensures IsDigits(Zeros(k) + s) && Value(Zeros(k) + s) == Value(s)
  {
    var t := Zeros(k) + s;
    if s == [] {
      assert t == Zeros(k);
      if k > 0 {
        assert t[..k - 1] == Zeros(k - 1) + [];
        LeadingZerosValue(k - 1, []);
      }
    } else {
      assert t[..|t| - 1] == Zeros(k) + s[..|s| - 1];
      LeadingZerosValue(k, s[..|s| - 1]);
    }
  }

  /** Python's `"%03d" % n` for a non-negative integer: at least three digits, zero-padded. */
  function Pad3(n: nat): (s: string)
    ensures |s| >= 3 && IsDigits(s) && Value(s) == n
    ensures |s| > 3 ==> s[0] != '0'
  {
    var d := NatToString(n);
    if |d| < 3 then
      LeadingZerosValue(3 - |d|, d);
      Zeros(3 - |d|) + d
    else d
  }

  // ---------------------------------------------------------------------------
  // Python's `str.split(sep)` for a one-character separator
  // ---------------------------------------------------------------------------

  /** `s.split(sep)`: the pieces between separators. Joining them with `sep` gives `s` back and
    * no piece holds `sep`, which determines them. */
  function Split(s: string, sep: char): (parts: seq<string>)
    ensures |parts| >= 1
    ensures Join(parts, sep) == s
    ensures forall i :: 0 <= i < |parts| ==> sep !in parts[i]
    decreases |s|
  {
    if s == [] then [[]]
    else
      var rest := Split(s[1..], sep);
      assert s == [s[0]] + s[1..];
      if s[0] == sep then
        var parts := [[]] + rest;
        assert parts[1..] == rest;
        parts
      else
        var parts := [[s[0]] + rest[0]] + rest[1..];
        assert forall i :: 1 <= i < |parts| ==> parts[i] == rest[i];
        assert |rest| > 1 ==> parts[1..] == rest[1..] && Join(rest, sep) == rest[0] + [sep] + Join(rest[1..], sep);
        parts
  }

  /** `sep.join(parts)` */
  function Join(parts: seq<string>, sep: char): string
    requires |parts| >= 1
  {
    if |parts| == 1 then parts[0] else parts[0] + [sep] + Join(parts[1..], sep)
  }

  /** A prefix free of the separator sticks to the front of the first piece. */
  lemma {:induction false} SplitPrefix(b: string, t: string, sep: char)
    requires sep !in b
    ensures |Split(b + t, sep)| == |Split(t, sep)|
    ensures Split(b + t, sep)[0] == b + Split(t, sep)[0]
    ensures Split(b + t, sep)[1..] == Split(t, sep)[1..]
    decreases |b|
  {
    if b != [] {
      assert (b + t)[1..] == b[1..] + t;
      SplitPrefix(b[1..], t, sep);
      assert b == [b[0]] + b[1..];
    } else {
      assert b + t == t;
    }
  }

  /** A piece free of the separator, followed by the separator, is the first piece. */
  lemma SplitAtSeparator(a: string, rest: string, sep: char)
    requires sep !in a
    ensures Split(a + [sep] + rest, sep) == [a] + Split(rest, sep)
  {
    var t := [sep] + rest;
    assert t[0] == sep && t[1..] == rest;
    var r := Split(rest, sep);
    var u := Split(t, sep);
    assert u == [[]] + r;
    assert u[0] == [] && u[1..] == r;
    assert a + [sep] + rest == a + t;
    SplitPrefix(a, t, sep);
    var s := Split(a + t, sep);
    assert s[0] == a + [] == a;
    assert s[1..] == r;
    assert s == [s[0]] + s[1..];
  }
}
