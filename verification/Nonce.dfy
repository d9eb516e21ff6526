/** The 24-byte little-endian nonce counter of the stream cipher, updated in place. */
module Nonce {
  import opened Bytes

  /** The number a byte string denotes, least significant byte first. */
  function Value(s: seq<byte>): (v: nat) {
    if s == [] then 0 else s[0] + 256 * Value(s[1..])
  }

  /** The `n` lowest base-256 digits of `v`, least significant first. */
  function Digits(v: nat, n: nat): (s: seq<byte>)
    ensures |s| == n
  {
    if n == 0 then [] else [v % 256] + Digits(v / 256, n - 1)
  }

  /** `v` moved up by `n` digits, that is, times 256^n. */
  function Shift(v: nat, n: nat): (w: nat) {
    if n == 0 then v else 256 * Shift(v, n - 1)
  }

  lemma {:induction false} ShiftSum(v: nat, w: nat, n: nat)
    ensures Shift(v + w, n) == Shift(v, n) + Shift(w, n)
  {
    if n != 0 {
      ShiftSum(v, w, n - 1);
    }
  }

  lemma {:induction false} ShiftTwice(v: nat, n: nat)
    ensures Shift(256 * v, n) == Shift(v, n + 1)
  {
    if n != 0 {
      ShiftTwice(v, n - 1);
    }
  }

  lemma {:induction false} ShiftMonotone(v: nat, w: nat, n: nat)
    requires v <= w
    ensures Shift(v, n) <= Shift(w, n)
  {
    if n != 0 {
      ShiftMonotone(v, w, n - 1);
    }
  }

  lemma {:induction false} DigitsOfValue(s: seq<byte>)
    ensures Digits(Value(s), |s|) == s
  {
    if s != [] {
      DigitsOfValue(s[1..]);
      assert Value(s) % 256 == s[0] && Value(s) / 256 == Value(s[1..]);
    }
  }

  lemma {:induction false} ValueBound(s: seq<byte>)
    ensures Value(s) < Shift(1, |s|)
  {
    if s != [] {
      ValueBound(s[1..]);
    }
  }

  lemma {:induction false} ValueConcat(a: seq<byte>, b: seq<byte>)
    ensures Value(a + b) == Value(a) + Shift(Value(b), |a|)
  {
    if a == [] {
      assert a + b == b;
    } else {
      ValueConcat(a[1..], b);
      assert (a + b)[1..] == a[1..] + b;
    }
  }

  /** Keeping `n` digits is arithmetic modulo 256^n. */
  lemma {:induction false} ValueOfDigits(v: nat, n: nat)
    ensures Shift(1, n) > 0 && Value(Digits(v, n)) == v % Shift(1, n)
  {
    var q := DigitsQuotient(v, n);
    ValueBound(Digits(v, n));
    ShiftIsProduct(q, n);
    DivModUnique(v, Shift(1, n), q, Value(Digits(v, n)));
  }

  lemma {:induction false} DigitsQuotient(v: nat, n: nat) returns (q: nat)
    ensures v == Value(Digits(v, n)) + Shift(q, n)
    decreases n
  {
    if n == 0 {
      q := v;
    } else {
      q := DigitsQuotient(v / 256, n - 1);
      assert Digits(v, n)[1..] == Digits(v / 256, n - 1);
    }
  }

  lemma {:induction false} ShiftIsProduct(q: nat, n: nat)
    ensures Shift(q, n) == q * Shift(1, n) && Shift(1, n) > 0
  {
    if n != 0 {
      ShiftIsProduct(q, n - 1);
      assert 256 * (q * Shift(1, n - 1)) == q * (256 * Shift(1, n - 1));
    }
  }

  lemma DivModUnique(v: nat, d: nat, q: nat, r: nat)
    requires d > 0 && v == q * d + r && r < d
    ensures v % d == r && v / d == q
  {
    QuotientsAgree(d, q, r, v / d, v % d);
  }

  lemma QuotientsAgree(d: nat, q: nat, r: nat, q': nat, r': nat)
    requires r < d && r' < d && q * d + r == q' * d + r'
    ensures q == q' && r == r'
  {
    if q < q' {
      MulAtLeast(d, q, q');
      assert false;
    } else if q' < q {
      MulAtLeast(d, q', q);
      assert false;
    }
  }

  lemma MulAtLeast(d: nat, a: nat, b: nat)
    requires a < b
    ensures b * d >= a * d + d
  {
    var k := b - a - 1;
    assert b * d == a * d + k * d + d;
  }

  /** Numbers less than 256^n apart differ in their `n` lowest digits. */
  lemma DigitsDiffer(v: nat, w: nat, n: nat)
    requires v < w && Digits(v, n) == Digits(w, n)
    ensures w >= v + Shift(1, n)
  {
    var p := DigitsQuotient(v, n);
    var q := DigitsQuotient(w, n);
    ShiftIsProduct(p, n);
    ShiftIsProduct(q, n);
    if p < q {
      MulAtLeast(Shift(1, n), p, q);
    } else if q < p {
      MulAtLeast(Shift(1, n), q, p);
    }
  }

  /** Adding to a truncated number and truncating the sum of the full numbers give the same digits. */
  lemma {:induction false} AddToDigits(v: nat, x: nat, n: nat)
    ensures Digits(Value(Digits(v, n)) + x, n) == Digits(v + x, n)
    decreases n
  {
    if n == 0 {
    } else {
      var d := Digits(v, n);
      assert d[1..] == Digits(v / 256, n - 1);
      var carry := (v % 256 + x) / 256;
      AddToDigits(v / 256, carry, n - 1);
      assert (v + x) / 256 == v / 256 + carry;
      assert (Value(d) + x) / 256 == Value(d[1..]) + carry;
    }
  }

  /** Splitting the digits of a number whose low part and high part are known. */
  lemma {:induction false} DigitsSplit(low: nat, high: nat, k: nat, n: nat)
    requires low < Shift(1, k)
    ensures Digits(low + Shift(high, k), k + n) == Digits(low, k) + Digits(high, n)
    decreases k
  {
    if k == 0 {
    } else {
      DigitsSplit(low / 256, high, k - 1, n);
      assert (low + Shift(high, k)) / 256 == low / 256 + Shift(high, k - 1);
    }
  }

  /** The carry chain on a digit string: 255s turn to 0 up to the first other digit, which grows by one. */
  function Successor(s: seq<byte>): (t: seq<byte>)
    ensures |t| == |s|
  {
    if s == [] then []
    else if s[0] == 255 then [0] + Successor(s[1..])
    else [s[0] + 1] + s[1..]
  }

  lemma {:induction false} SuccessorIsPlusOne(s: seq<byte>)
    ensures Successor(s) == Digits(Value(s) + 1, |s|)
  {
    if s != [] {
      if s[0] == 255 {
        SuccessorIsPlusOne(s[1..]);
        assert (Value(s) + 1) / 256 == Value(s[1..]) + 1;
      } else {
        DigitsOfValue(s[1..]);
        assert (Value(s) + 1) / 256 == Value(s[1..]);
      }
    }
  }

  /** Replacing the tail of a number by its successor adds the weight of the tail's first digit. */
  lemma CarryValue(low: seq<byte>, high: seq<byte>, v: nat, k: nat, n: nat)
    requires v == Value(low + high) && k == |low| && n == |high|
    ensures low + Successor(high) == Digits(v + Shift(1, k), k + n)
  {
    ValueConcat(low, high);
    ValueBound(low);
    ShiftSum(Value(high), 1, k);
    DigitsSplit(Value(low), Value(high) + 1, k, n);
    DigitsOfValue(low);
    SuccessorIsPlusOne(high);
  }

  /** Adds one at digit `i` and propagates the carry to the end of the array. */
  method Carry(n: array<byte>, i: nat)
    requires i <= n.Length
    modifies n
    ensures n[..] == old(n[..i]) + Successor(old(n[i..]))
  {
    hide *;
    ghost var was := n[..];
    var j := i;
    while j < n.Length
      invariant i <= j <= n.Length
      invariant n[j..] == was[j..]
      invariant was[..i] + Successor(was[i..]) == n[..j] + Successor(was[j..])
    {
      var digit := n[j];
      var newDigit: byte := (digit as int + 1) % 256;
      ghost var before, tail := n[..j], was[j + 1..];
      SuccessorStep(before, was[j..]);
      n[j] := newDigit;
      assert n[..j + 1] == before + [newDigit];
      assert n[j + 1..] == tail;
      if newDigit >= digit {
        assert n[..] == before + [newDigit] + tail;
        return;
      }
      j := j + 1;
    }
    assert n[..] == n[..j];
  }

  lemma SuccessorStep(before: seq<byte>, s: seq<byte>)
    requires s != []
    ensures s[0] == 255 ==> before + Successor(s) == before + [0] + Successor(s[1..])
    ensures s[0] < 255 ==> before + Successor(s) == before + [s[0] + 1] + s[1..]
  {
  }

  /** Adds one, modulo 256^n.Length: 2^192 for the nonce of a file. */
  method Increment(n: array<byte>)
    modifies n
    ensures n[..] == Digits(Value(old(n[..])) + 1, n.Length)
  {
    ghost var was := n[..];
    Carry(n, 0);
    assert was[..0] + Successor(was[0..]) == Successor(was);
    SuccessorIsPlusOne(was);
  }

  /** After `|done|` rounds of the addition, the finished digits, the carry and the rest of x
      together still make up the sum of the original digits and x. */
  ghost predicate PartialSum(done: seq<byte>, was: seq<byte>, carry: nat, rest: nat, x: nat) {
    |done| == |was| && Value(done) + Shift(carry + rest, |done|) == Value(was) + x
  }

  lemma AddRound(done: seq<byte>, was: seq<byte>, carry: nat, rest: nat, x: nat, digit: byte)
    requires PartialSum(done, was, carry, rest, x)
    ensures var sum := carry + digit + rest % 256;
            PartialSum(done + [sum % 256], was + [digit], sum / 256, rest / 256, x)
  {
    var k, sum := |done|, carry + digit + rest % 256;
    ValueConcat(done, [sum % 256]);
    ValueConcat(was, [digit]);
    assert Value([digit]) == digit && Value([sum % 256]) == sum % 256 by {
      assert Value([]) == 0;
    }
    var up := sum / 256 + rest / 256;
    ShiftTwice(up, k);
    ShiftSum(sum % 256, 256 * up, k);
    ShiftSum(carry + rest, digit, k);
    assert sum % 256 + 256 * up == carry + rest + digit;
  }

  /** Adds the 64-bit number `x`, modulo 256^n.Length: 2^192 for the nonce of a file. */
  method Add(n: array<byte>, x: nat)
    requires n.Length >= 8
    requires x < Shift(1, 8)
    modifies n
    ensures n[..] == Digits(Value(old(n[..])) + x, n.Length)
  {
    hide *;
    ghost var was := n[..];
    var rest: nat, carry: nat := x, 0;
    assert was[..0] == n[..0] == [];
    NothingAdded(x);
    for i := 0 to 8
      invariant carry < 256
      invariant n[i..] == was[i..]
      invariant rest < Shift(1, 8 - i)
      invariant PartialSum(n[..i], was[..i], carry, rest, x)
    {
      var digit, xDigit := n[i], rest % 256;
      AddRound(n[..i], was[..i], carry, rest, x, digit);
      var sum: nat := carry + digit + xDigit;
      assert sum < 0x1_0000;  // the 16-bit accumulator does not overflow
      ghost var done := n[..i];
      n[i] := sum % 256;
      assert n[..i + 1] == done + [sum % 256] && was[..i + 1] == was[..i] + [digit];
      assert n[i + 1..] == was[i + 1..];
      DropDigit(rest, 8 - i);
      rest, carry := rest / 256, sum / 256;
    }
    DropDigit(rest, 0);
    AddTail(was, n[..], x, carry, 8);
    if carry != 0 {
      ghost var mid := n[..];
      Carry(n, 8);
      assert n[..] == mid[..8] + Successor(mid[8..]);
    }
  }

  lemma NothingAdded(x: nat)
    ensures PartialSum([], [], 0, x, x)
  {
  }

  lemma DropDigit(v: nat, n: nat)
    requires v < Shift(1, n)
    ensures if n == 0 then v == 0 else v / 256 < Shift(1, n - 1)
  {
  }

  lemma AddTail(was: seq<byte>, now: seq<byte>, x: nat, carry: nat, k: nat)
    requires |was| == |now| >= k && now[k..] == was[k..] && x < Shift(1, k)
    requires PartialSum(now[..k], was[..k], carry, 0, x)
    ensures carry == 0 ==> now == Digits(Value(was) + x, |was|)
    ensures carry != 0 ==> now[..k] + Successor(now[k..]) == Digits(Value(was) + x, |was|)
  {
    assert now == now[..k] + now[k..] && was == was[..k] + was[k..];
    ValueConcat(now[..k], now[k..]);
    ValueConcat(was[..k], was[k..]);
    assert Value(now) + Shift(carry, k) == Value(was) + x;
    if carry == 0 {
      ShiftMonotone(0, 0, k);
      ShiftSum(0, 0, k);
      DigitsOfValue(now);
    } else {
      ValueBound(was[..k]);
      if carry >= 2 {
        ShiftSum(1, 1, k);
        ShiftMonotone(2, carry, k);
        assert false;
      }
      CarryValue(now[..k], now[k..], Value(now), k, |now| - k);
    }
  }

  /** `k` increments in a row. */
  function Increments(s: seq<byte>, k: nat): (t: seq<byte>)
    ensures |t| == |s|
  {
    if k == 0 then s else Successor(Increments(s, k - 1))
  }

  /** Adding k at once gives what k increments give: a seek to block k finds the nonce
      that the encrypter reached after k blocks. */
  lemma {:induction false} IncrementsIsAdd(s: seq<byte>, k: nat)
    ensures Increments(s, k) == Digits(Value(s) + k, |s|)
    ensures Shift(1, |s|) > 0 && Value(Increments(s, k)) == (Value(s) + k) % Shift(1, |s|)
  {
    hide Digits, Value, Successor, Shift;
    if k == 0 {
      DigitsOfValue(s);
    } else {
      IncrementsIsAdd(s, k - 1);
      SuccessorIsPlusOne(Increments(s, k - 1));
      AddToDigits(Value(s) + k - 1, 1, |s|);
    }
    ValueOfDigits(Value(s) + k, |s|);
  }
}
