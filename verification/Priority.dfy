/** MX preferences as label text: the `%05d` of prober/mx.go and its reading in cycle/runner.go. */
module Priority {
  import opened Wrappers
  import opened Text

  const WIDTH: nat := 5

  /** An MX preference is a 16-bit unsigned number. */
  type Preference = n: nat | n < 0x1_0000

  function DigitChar(d: nat): char
    requires d < 10
  {
    ('0' as int + d) as char
  }

  predicate IsDigit(c: char) {
    '0' <= c <= '9'
  }

  function DigitValue(c: char): (d: nat)
    requires IsDigit(c)
    ensures d < 10
  {
    c as int - '0' as int
  }

  /** The last `width` decimal digits of `n`, zero-padded. */
  function Digits(n: nat, width: nat): (s: string)
    ensures |s| == width && forall c <- s :: IsDigit(c)
    decreases width
  {
    if width == 0 then "" else Digits(n / 10, width - 1) + [DigitChar(n % 10)]
  }

  /** `fmt.Sprintf("%05d", n)`, which never needs a sixth digit for a preference. */
  function Padded(n: Preference): string {
    Digits(n, WIDTH)
  }

  function Value(s: string): nat
    requires forall c <- s :: IsDigit(c)
  {
    if s == "" then 0 else 10 * Value(s[..|s| - 1]) + DigitValue(s[|s| - 1])
  }

  /** `strconv.ParseFloat` on plain digit strings; anything else is an error here. */
  function Parse(s: string): Option<nat> {
    if s != "" && forall c <- s :: IsDigit(c) then Some(Value(s)) else None
  }

  function Pow10(k: nat): nat {
    if k == 0 then 1 else 10 * Pow10(k - 1)
  }

  lemma {:induction false} ValueOfDigits(n: nat, width: nat)
    requires n < Pow10(width)
    ensures Value(Digits(n, width)) == n
    decreases width
  {
    if width > 0 {
      ValueOfDigits(n / 10, width - 1);
      var s := Digits(n, width);
      assert s[..width - 1] == Digits(n / 10, width - 1);
    }
  }

  /** Every preference prints as five decimal digits and survives parsing. */
  lemma PaddedParsesBack(n: Preference)
    ensures Parse(Padded(n)) == Some(n)
    ensures |Padded(n)| == 5 && forall c <- Padded(n) :: '0' <= c <= '9'
  {
    assert Pow10(1) == 10 && Pow10(2) == 100 && Pow10(3) == 1000 && Pow10(4) == 10000;
    ValueOfDigits(n, WIDTH);
  }

  lemma {:induction false} LessSnoc(a: string, b: string, x: char, y: char)
    requires |a| == |b|
    ensures Less(a + [x], b + [y]) <==> Less(a, b) || (a == b && x < y)
  {
    if a != [] {
      assert (a + [x])[1..] == a[1..] + [x] && (b + [y])[1..] == b[1..] + [y];
      LessSnoc(a[1..], b[1..], x, y);
      assert a == [a[0]] + a[1..] && b == [b[0]] + b[1..];
    }
  }

  /** For digit strings of one length, string order is numeric order. */
  lemma {:induction false} LessIsNumeric(a: string, b: string)
    requires |a| == |b| && (forall c <- a :: IsDigit(c)) && (forall c <- b :: IsDigit(c))
    ensures Less(a, b) <==> Value(a) < Value(b)
    ensures a == b <==> Value(a) == Value(b)
  {
    if a != [] {
      var a', b', x, y := a[..|a| - 1], b[..|b| - 1], a[|a| - 1], b[|b| - 1];
      assert a == a' + [x] && b == b' + [y];
      LessSnoc(a', b', x, y);
      LessIsNumeric(a', b');
      assert Value(a) == 10 * Value(a') + DigitValue(x);
      assert Value(b) == 10 * Value(b') + DigitValue(y);
      assert a == b <==> a' == b' && x == y;
      assert x == y <==> DigitValue(x) == DigitValue(y);
    }
  }

  /** Sorting the padded labels as text sorts the preferences as numbers. */
  lemma PaddedOrderIsNumeric(m: Preference, n: Preference)
    ensures Less(Padded(m), Padded(n)) <==> m < n
  {
    PaddedParsesBack(m);
    PaddedParsesBack(n);
    LessIsNumeric(Padded(m), Padded(n));
  }
}
