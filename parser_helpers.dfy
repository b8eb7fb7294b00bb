/**
 * Two helpers of parser.c: `log10u`, the decimal digit count used to size trace columns, and the
 * growable character buffer `StringBuilder` with its `string_builder_append`.
 */
module ParserHelpers {
  import opened Bytes

  function Pow10(k: nat): (p: nat)
    ensures p >= 1
  {
    if k == 0 then 1 else 10 * Pow10(k - 1)
  }

  /** A larger exponent gives a power at least ten times larger. */
  lemma {:induction false} Pow10Grows(i: nat, j: nat)
    requires i < j
    ensures 10 * Pow10(i) <= Pow10(j)
    decreases j
  {
    if j > i + 1 {
      Pow10Grows(i, j - 1);
    }
  }

  /** `d` is the number of decimal digits of `n`: none for 0, else the `d` with 10^(d-1) <= n < 10^d. */
  predicate IsDigitCount(n: nat, d: nat) {
    if n == 0 then d == 0 else d > 0 && Pow10(d - 1) <= n < Pow10(d)
  }

  lemma OrderedPowers(i: nat, j: nat)
    requires i <= j
    ensures Pow10(i) <= Pow10(j)
  {
    if i < j {
      Pow10Grows(i, j);
    }
  }

  /** The digit count is unique. */
  lemma DigitCountUnique(n: nat, d1: nat, d2: nat)
    requires IsDigitCount(n, d1) && IsDigitCount(n, d2)
    ensures d1 == d2
  {
    if n > 0 && d1 < d2 {
      OrderedPowers(d1, d2 - 1);
    } else if n > 0 && d2 < d1 {
      OrderedPowers(d2, d1 - 1);
    }
  }

  lemma MulMono(a: nat, b: nat, p: nat)
    requires a <= b
    ensures a * p <= b * p
  {
  }

  lemma MulAssoc(a: nat, b: nat, c: nat)
    ensures a * (b * c) == (a * b) * c
  {
  }

  /** Dividing `m` by ten widens the bracket `m * p <= n < (m + 1) * p` to steps of `10 * p`. */
  lemma DivideBracket(n: nat, m: nat, p: nat)
    requires m > 0 && p >= 1 && m * p <= n < (m + 1) * p
    ensures (m / 10) * (10 * p) <= n < (m / 10 + 1) * (10 * p)
    ensures p <= n
  {
    var q := m / 10;
    assert 10 * q <= m < 10 * q + 10;
    MulAssoc(q, 10, p);
    MulAssoc(q + 1, 10, p);
    MulMono(10 * q, m, p);
    MulMono(m + 1, 10 * q + 10, p);
    MulMono(1, m, p);
  }

  /** One division by ten takes one digit off, keeping both bounds of the loop of `log10u`. */
  lemma DivideStep(n: nat, m: nat, k: nat)
    requires m > 0 && m * Pow10(k) <= n < (m + 1) * Pow10(k)
    ensures (m / 10) * Pow10(k + 1) <= n < (m / 10 + 1) * Pow10(k + 1)
    ensures Pow10(k) <= n
  {
    assert Pow10(k + 1) == 10 * Pow10(k);
    DivideBracket(n, m, Pow10(k));
  }

  /** `log10u`: the number of decimal digits of `n`, and 0 for 0, counted by dividing by ten. */
  method Log10u(n: nat) returns (ret: nat)
    ensures IsDigitCount(n, ret)
  {
    var m := n;
    ret := 0;
    while m > 0
      invariant m * Pow10(ret) <= n < (m + 1) * Pow10(ret)
      invariant ret > 0 ==> Pow10(ret - 1) <= n
      decreases m
    {
      DivideStep(n, m, ret);
      m := m / 10;
      ret := ret + 1;
    }
  }

  /** `StringBuilder`: `length` characters in a heap buffer of room `capacity`. */
  class StringBuilder {
    var str: array<Byte>
    var capacity: nat
    var length: nat

    /** The buffer holds `capacity` bytes at least, and the text with its terminator fits. */
    ghost predicate Valid()
      reads this
    {
      str.Length >= capacity && capacity > length
    }

    /** The characters built so far. */
    function Contents(): seq<Byte>
      reads this, str
      requires Valid()
    {
      str[..length]
    }

    /** `string_builder_init`: empty, with room for 16 characters in a buffer of 17. */
    constructor ()
      ensures Valid() && Contents() == [] && capacity == 16 && str.Length == 17
    {
      str := new Byte[17](_ => '\0');
      capacity := 16;
      length := 0;
    }

    /**
     * `string_builder_append`: the contents gain `text` at the end and a NUL after it; when the
     * text and terminator do not fit, the buffer is first reallocated to twice their length.
     */
    method Append(text: seq<Byte>)
      requires Valid() && '\0' !in text
      modifies this, str
      ensures Valid() && Contents() == old(Contents()) + text
      ensures length == old(length) + |text| && str[length] == '\0'
      ensures old(length) + |text| + 1 > old(capacity) ==> capacity == 2 * (old(length) + |text| + 1) && fresh(str)
      ensures old(length) + |text| + 1 <= old(capacity) ==> capacity == old(capacity) && str == old(str)
    {
      var newLength := length + |text| + 1;
      if newLength > capacity {
        capacity := newLength * 2;
        str := Reallocated(str, length, capacity);
      }
      WriteString(str, length, text);
      length := newLength - 1;
    }
  }

  /** `realloc` to `size` bytes keeping the first `keep`: a fresh buffer with them copied. */
  method Reallocated(a: array<Byte>, keep: nat, size: nat) returns (b: array<Byte>)
    requires keep <= a.Length && keep <= size
    ensures fresh(b) && b.Length == size && b[..keep] == a[..keep]
  {
    b := new Byte[size](_ => '\0');
    forall i | 0 <= i < keep {
      b[i] := a[i];
    }
  }

  /** `strcpy(a + at, text)`: the bytes of `text` and a NUL written from `at`, those before `at` kept. */
  method WriteString(a: array<Byte>, at: nat, text: seq<Byte>)
    requires at + |text| < a.Length
    modifies a
    ensures a[..at + |text|] == old(a[..at]) + text && a[at + |text|] == '\0'
  {
    var i := 0;
    while i < |text|
      invariant 0 <= i <= |text|
      invariant a[..at + i] == old(a[..at]) + text[..i]
    {
      a[at + i] := text[i];
      assert a[..at + i + 1] == a[..at + i] + [text[i]];
      assert text[..i + 1] == text[..i] + [text[i]];
      i := i + 1;
    }
    a[at + |text|] := '\0';
    assert a[..at + |text|] == old(a[..at]) + text;
  }
}
