/** The few functions of Go's strings and strconv that several models need. */
module GoStrings {
  import opened Basics

  const MAX_INT := 0x7FFF_FFFF_FFFF_FFFF

  // ---------------------------------------------------------------- order

  /** Go's string order. */
  predicate StrLe(a: string, b: string)
    decreases |a|
  {
    a == [] || (b != [] && (a[0] < b[0] || (a[0] == b[0] && StrLe(a[1..], b[1..]))))
  }

  lemma {:induction false} StrLeTotal(a: string, b: string)
    ensures StrLe(a, b) || StrLe(b, a)
    ensures StrLe(a, b) && StrLe(b, a) ==> a == b
    decreases |a|
  {
    if a != [] && b != [] {
      StrLeTotal(a[1..], b[1..]);
      if a[0] == b[0] && a[1..] == b[1..] { assert a == [a[0]] + a[1..] && b == [b[0]] + b[1..]; }
    }
  }

  lemma {:induction false} StrLeTrans(a: string, b: string, c: string)
    requires StrLe(a, b) && StrLe(b, c)
    ensures StrLe(a, c)
    decreases |a|
  {
    if a != [] && a[0] == b[0] && b[0] == c[0] { StrLeTrans(a[1..], b[1..], c[1..]); }
  }

  /** Of two strings the smaller is a beginning of the other, or has the smaller character where they first differ. */
  lemma {:induction false} StrLeIff(a: string, b: string)
    ensures StrLe(a, b) <==> a <= b || exists i :: 0 <= i < |a| && i < |b| && a[..i] == b[..i] && a[i] < b[i]
    decreases |a|
  {
    if a != [] && b != [] {
      if a[0] == b[0] {
        var x, y := a[1..], b[1..];
        StrLeIff(x, y);
        assert a <= b <==> x <= y by { assert a == [a[0]] + x && b == [b[0]] + y; }
        if i :| 0 <= i < |x| && i < |y| && x[..i] == y[..i] && x[i] < y[i] {
          assert a[..i+1] == [a[0]] + x[..i] && b[..i+1] == [b[0]] + y[..i] && a[i+1] < b[i+1];
        }
        if i :| 0 <= i < |a| && i < |b| && a[..i] == b[..i] && a[i] < b[i] {
          assert x[..i-1] == a[..i][1..] && y[..i-1] == b[..i][1..] && x[i-1] < y[i-1];
        }
      } else if a[0] < b[0] {
        assert a[..0] == b[..0];
      } else {
        assert forall i :: 0 < i < |a| && i < |b| ==> a[..i][0] != b[..i][0];
      }
    }
  }

  // ---------------------------------------------------------------- numbers

  function DigitChar(d: int): char
    requires 0 <= d < 10
  {
    '0' + d as char
  }

  /** strconv.Itoa of a number that is not negative. */
  function Itoa(n: nat): string {
    if n < 10 then [DigitChar(n)] else Itoa(n / 10) + [DigitChar(n % 10)]
  }

  predicate IsDigits(s: string) {
    s != [] && forall i :: 0 <= i < |s| ==> '0' <= s[i] <= '9'
  }

  function Digits(s: string): nat
    requires forall i :: 0 <= i < |s| ==> '0' <= s[i] <= '9'
  {
    if s == [] then 0 else 10 * Digits(s[..|s|-1]) + (s[|s|-1] as int - '0' as int)
  }

  /** strconv.Atoi; None is its error. */
  function Atoi(s: string): Option<int> {
    var body := if s != [] && (s[0] == '+' || s[0] == '-') then s[1..] else s;
    if !IsDigits(body) then None
    else
      var d: int := Digits(body);
      var n := if s[0] == '-' then -d else d;
      if -MAX_INT - 1 <= n <= MAX_INT then Some(n) else None
  }

  lemma {:induction false} DigitsOfItoa(n: nat)
    ensures IsDigits(Itoa(n)) && Digits(Itoa(n)) == n
  {
    if n >= 10 {
      DigitsOfItoa(n / 10);
      assert Itoa(n)[..|Itoa(n)|-1] == Itoa(n / 10);
    }
  }

  lemma {:induction false} ItoaRoundTrip(n: nat)
    requires n <= MAX_INT
    ensures Itoa(n) != "" && Atoi(Itoa(n)) == Some(n)
  {
    DigitsOfItoa(n);
    assert '0' <= Itoa(n)[0] <= '9';
  }

  /** A sign is read too, as far as the 64 bits go. */
  lemma {:induction false} AtoiSigns(n: nat)
    ensures n <= MAX_INT + 1 ==> Atoi("-" + Itoa(n)) == Some(-(n as int))
    ensures n <= MAX_INT ==> Atoi("+" + Itoa(n)) == Some(n)
    ensures n > MAX_INT ==> Atoi(Itoa(n)).None?
  {
    hide Itoa, Digits;
    DigitsOfItoa(n);
    assert ("-" + Itoa(n))[1..] == Itoa(n) && ("+" + Itoa(n))[1..] == Itoa(n);
  }
}
