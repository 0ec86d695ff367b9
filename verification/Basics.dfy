/** Shared vocabulary: optional values, results, decimal numerals and finite-set counting. */
module Basics {

  datatype Option<+T> = None | Some(value: T)

  datatype Result<+T, +E> = Ok(value: T) | Err(error: E)

  function Lookup<K, V>(m: map<K, V>, k: K): Option<V> {
    if k in m then Some(m[k]) else None
  }

  function Last<T>(s: seq<T>): T
    requires s != []
  {
    s[|s| - 1]
  }

  // ---------------------------------------------------------------- decimal numerals

  predicate IsDigit(c: char) { '0' <= c <= '9' }

  function DigitChar(d: nat): (c: char)
    requires d < 10
    ensures IsDigit(c) && DigitValue(c) == d
  {
    '0' + d as char
  }

  function DigitValue(c: char): (d: nat)
    requires IsDigit(c)
    ensures d < 10
  {
    (c - '0') as nat
  }

  predicate AllDigits(s: string) { forall i :: 0 <= i < |s| ==> IsDigit(s[i]) }

  /** strconv.Itoa on a non-negative integer. */
  function Itoa(n: nat): (s: string)
    ensures s != [] && AllDigits(s)
  {
    if n < 10 then [DigitChar(n)] else Itoa(n / 10) + [DigitChar(n % 10)]
  }

  /** Zero padding on the left up to a width, as in the format verb %0<width>d. */
  function Pad(width: nat, s: string): (r: string)
    ensures |r| == if |s| < width then width else |s|
    ensures AllDigits(s) ==> AllDigits(r)
    decreases width - |s|
  {
    if |s| < width then Pad(width, ['0'] + s) else s
  }

  /** The value of a string of decimal digits. */
  function DigitsValue(s: string): nat
    requires AllDigits(s)
  {
    if s == [] then 0 else DigitsValue(s[..|s| - 1]) * 10 + DigitValue(Last(s))
  }

  /** strconv.Atoi: an optional sign followed by at least one digit. */
  function Atoi(s: string): Option<int> {
    var body := if s != [] && (s[0] == '-' || s[0] == '+') then s[1..] else s;
    if body == [] || !AllDigits(body) then None
    else if s[0] == '-' then Some(-(DigitsValue(body) as int))
    else Some(DigitsValue(body))
  }

  lemma {:induction false} LeadingZero(s: string)
    requires AllDigits(s)
    ensures AllDigits(['0'] + s) && DigitsValue(['0'] + s) == DigitsValue(s)
  {
    if s != [] {
      LeadingZero(s[..|s| - 1]);
      assert (['0'] + s)[..|s|] == ['0'] + s[..|s| - 1];
    }
  }

  lemma {:induction false} PadValue(width: nat, s: string)
    requires AllDigits(s)
    ensures DigitsValue(Pad(width, s)) == DigitsValue(s)
    decreases width - |s|
  {
    if |s| < width {
      LeadingZero(s);
      PadValue(width, ['0'] + s);
    }
  }

  lemma {:induction false} ItoaValue(n: nat)
    ensures DigitsValue(Itoa(n)) == n
  {
    if n >= 10 {
      ItoaValue(n / 10);
      assert Itoa(n)[..|Itoa(n)| - 1] == Itoa(n / 10);
    }
  }

  /** Printing then parsing a padded numeral gives the number back. */
  lemma AtoiPad(width: nat, n: nat)
    ensures Atoi(Pad(width, Itoa(n))) == Some(n)
  {
    var s := Pad(width, Itoa(n));
    assert AllDigits(s) && |s| > 0;
    PadValue(width, Itoa(n));
    ItoaValue(n);
  }

  lemma {:induction false} ItoaLength(n: nat, w: nat)
    requires w > 0 && n < Pow10(w)
    ensures |Itoa(n)| <= w
    decreases n
  {
    if n >= 10 {
      assert w > 1;
      ItoaLength(n / 10, w - 1);
    }
  }

  function Pow10(w: nat): nat { if w == 0 then 1 else 10 * Pow10(w - 1) }

  // ---------------------------------------------------------------- counting

  lemma SubsetCard<T>(a: set<T>, b: set<T>)
    requires a <= b
    ensures |a| <= |b|
  {
    assert b == a + (b - a);
  }

  /** A bijective image has as many elements. */
  lemma {:induction false} ImageCard<A, B>(s: set<A>, t: set<B>, f: A -> B)
    requires forall x :: x in s ==> f(x) in t
    requires forall y :: y in t ==> exists x :: x in s && f(x) == y
    requires forall x, y :: x in s && y in s && f(x) == f(y) ==> x == y
    ensures |s| == |t|
    decreases s
  {
    if s == {} {
      assert t == {};
    } else {
      var x :| x in s;
      ImageCard(s - {x}, t - {f(x)}, f);
    }
  }

  lemma Associates<T>(a: seq<T>, b: seq<T>, c: seq<T>)
    ensures (a + b) + c == a + (b + c)
  {
  }

  // ---------------------------------------------------------------- multiples

  function Times(n: nat, w: real): real { n as real * w }

  lemma OneMore(n: nat, w: real)
    ensures Times(n + 1, w) == Times(n, w) + w
  {
    assert (n + 1) as real * w == n as real * w + w;
  }

  lemma TimesNone(w: real)
    ensures Times(0, w) == 0.0 && Times(1, w) == w
  {
  }

  /** Only the multiples of zero coincide. */
  lemma TimesIsOnce(n: nat, w: real)
    requires n > 0
    ensures Times(n, w) == w <==> w == 0.0 || n == 1
  {
    TimesNone(w);
    if n > 1 {
      OneMore(n - 1, w);
      var a := (n - 1) as real;
      if w > 0.0 {
        assert a * w > 0.0;
      } else if w < 0.0 {
        assert a * w < 0.0;
      } else {
        assert a * w == 0.0;
      }
    }
  }
}
