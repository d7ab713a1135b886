/** Number output: the hexadecimal and decimal digit loops of the UART, and reading digits back. */
module Digits {
  import opened Basics
  import opened Devicetree

  // ---------- hexadecimal ----------

  function Pow16(k: nat): (r: nat)
    ensures r > 0
  {
    if k == 0 then 1 else 16 * Pow16(k - 1)
  }

  /** `t += (t > 9 ? 0x37 : 0x30)` */
  function HexChar(t: nat): byte
    requires t < 16
  {
    if t > 9 then t + 0x37 else t + 0x30
  }

  /** The lowest `k` hexadecimal digits of a value, highest first. */
  function HexDigits(v: nat, k: nat): (s: seq<byte>)
    ensures |s| == k
  {
    if k == 0 then [] else HexDigits(v / 16, k - 1) + [HexChar(v % 16)]
  }

  /** A right shift by `k` hexadecimal digits. */
  function Shift(v: nat, k: nat): nat {
    if k == 0 then v else Shift(v, k - 1) / 16
  }

  /** The digit loop of `print_hex64`: `(val >> i) & 0xF` for i = 60, 56, .. 0. */
  method PrintHex64(v: nat) returns (out: seq<byte>)
    requires v < WORD_MOD
    ensures out == [48, 120] + HexDigits(v, 16)
    ensures out[..2] == ['0' as int, 'x' as int] && |out| == 18
    ensures forall i: nat {:trigger out[2..][i]} :: i < 16 ==>
              out[2..][i] == "0123456789ABCDEF"[v / Pow16(15 - i) % 16] as int
  {
    hide Pow16;
    out := [48, 120];
    var n := 0;
    while n < 16
      invariant n <= 16 && out == [48, 120] + HexDigits(Shift(v, 16 - n), n)
    {
      var t := Shift(v, 15 - n) % 16;
      assert HexDigits(Shift(v, 15 - n), n + 1) == HexDigits(Shift(v, 16 - n), n) + [HexChar(t)];
      out := out + [HexChar(t)];
      n := n + 1;
    }
    forall i: nat | i < 16 ensures out[2..][i] == "0123456789ABCDEF"[v / Pow16(15 - i) % 16] as int {
      DigitAt(v, 16, i);
    }
  }

  lemma HexCharIs(t: nat)
    requires t < 16
    ensures HexChar(t) == "0123456789ABCDEF"[t] as int
  {
  }

  /** Digit `i` of `k` is the character of the value that a division by its weight leaves. */
  lemma {:induction false} DigitAt(v: nat, k: nat, i: nat)
    requires i < k
    ensures HexDigits(v, k)[i] == "0123456789ABCDEF"[v / Pow16(k - 1 - i) % 16] as int
    decreases k
  {
    hide HexChar;
    if i == k - 1 {
      HexCharIs(v % 16);
    } else {
      DigitAt(v / 16, k - 1, i);
      DivideTwice(v, Pow16(k - 2 - i));
    }
  }

  lemma DivideTwice(v: nat, y: nat)
    requires y > 0
    ensures v / 16 / y == v / (16 * y)
  {
    var a := v / 16;
    Quotient(v, 16 * y, a / y, 16 * (a % y) + v % 16);
  }

  lemma Quotient(x: nat, m: nat, q: nat, r: nat)
    requires x == q * m + r && r < m
    ensures x / m == q
  {
    NotAbove(x / m, q, m, x % m, r);
    NotAbove(q, x / m, m, r, x % m);
  }

  lemma NotAbove(t: nat, q: nat, m: nat, u: nat, r: nat)
    requires t * m + u == q * m + r && r < m
    ensures t <= q
  {
    Gap(t - q, m);
    assert (t - q) * m == t * m - q * m;
  }

  lemma Gap(n: int, m: nat)
    ensures n > 0 ==> n * m >= m
  {
  }

  lemma HexCharReads(t: nat)
    requires t < 16
    ensures HexDigit(HexChar(t)) == Some(t) && HexChar(t) != 0 && HexChar(t) != AT
  {
  }

  lemma Scale(addr: nat, k: nat)
    requires k > 0
    ensures addr * Pow16(k) == 16 * (addr * Pow16(k - 1))
  {
    assert addr * (16 * Pow16(k - 1)) == 16 * (addr * Pow16(k - 1));
  }

  lemma HexDigitsLast(v: nat, k: nat)
    requires k > 0
    ensures HexDigits(v, k) == HexDigits(v / 16, k - 1) + [HexChar(v % 16)]
  {
  }

  lemma OneDigit(blob: seq<byte>, p: nat, hi: nat, high: nat, d: nat)
    requires p < hi <= |blob| && d < 16 && blob[p] == HexChar(d) && high * 16 + d < WORD_MOD
    ensures HexFrom(blob, p, hi, high) == HexFrom(blob, p + 1, hi, high * 16 + d)
  {
    HexCharReads(d);
    assert high * 16 % WORD_MOD == high * 16 && (high * 16 + d) % WORD_MOD == high * 16 + d;
  }

  /** Reading `k` digits of `v` shifts them into the address. */
  lemma {:induction false} ReadsDigits(blob: seq<byte>, p: nat, hi: nat, v: nat, k: nat, addr: nat)
    requires hi <= |blob| && p + k <= hi && Holds(blob, p, HexDigits(v, k))
    requires addr * Pow16(k) + v < WORD_MOD && v < Pow16(k)
    ensures HexFrom(blob, p, hi, addr) == HexFrom(blob, p + k, hi, addr * Pow16(k) + v)
    decreases k
  {
    hide HexFrom, HexDigits, HexChar;
    if k > 0 {
      var u, d, high := v / 16, v % 16, addr * Pow16(k - 1);
      HexDigitsLast(v, k);
      HoldsSplit(blob, p, HexDigits(u, k - 1), [HexChar(d)]);
      HoldsAt(blob, p + (k - 1), [HexChar(d)], 0);
      Scale(addr, k);
      assert v == 16 * u + d;
      ReadsDigits(blob, p, hi, u, k - 1, addr);
      OneDigit(blob, p + (k - 1), hi, high + u, d);
    }
  }

  /** For every 64-bit value, the 16 digits that `print_hex64` prints, put behind an `@` in a name, are
      read back by `parse_dtb_unit_name` as that value. */
  lemma PrintedAddressReadsBack(blob: seq<byte>, p: nat, hi: nat, prefix: seq<byte>, v: nat)
    requires v < WORD_MOD && forall i :: 0 <= i < |prefix| ==> prefix[i] != AT && prefix[i] != 0
    requires Holds(blob, p, prefix + [AT] + HexDigits(v, 16) + [0]) && p + |prefix| + 18 <= hi <= |blob|
    ensures UnitAddress(blob, p, hi) == Some(v)
  {
    hide HexFrom, HexDigits, FindAt, Pow16;
    HoldsSplit(blob, p, prefix + [AT] + HexDigits(v, 16), [0]);
    HoldsSplit(blob, p, prefix + [AT], HexDigits(v, 16));
    FindsAt(blob, p, hi, prefix);
    Pow16Is64Bits();
    var q := p + |prefix| + 1;
    ReadsDigits(blob, q, hi, v, 16, 0);
    HoldsAt(blob, q + 16, [0], 0);
    AtNul(blob, q + 16, hi, v);
  }

  lemma AtNul(blob: seq<byte>, p: nat, hi: nat, v: nat)
    requires p < hi <= |blob| && blob[p] == 0
    ensures HexFrom(blob, p, hi, v) == Some(v)
  {
  }

  lemma Pow16Is64Bits()
    ensures Pow16(16) == WORD_MOD
  {
    assert Pow16(4) == 0x1_0000;
    assert Pow16(8) == 0x1_0000_0000;
    assert Pow16(12) == 0x1_0000_0000_0000;
  }

  lemma {:induction false} FindsAt(blob: seq<byte>, p: nat, hi: nat, prefix: seq<byte>)
    requires forall i :: 0 <= i < |prefix| ==> prefix[i] != AT && prefix[i] != 0
    requires Holds(blob, p, prefix + [AT]) && p + |prefix| < hi <= |blob|
    ensures FindAt(blob, p, hi) == Some(p + |prefix|)
    decreases |prefix|
  {
    HoldsAt(blob, p, prefix + [AT], 0);
    if prefix != [] {
      assert prefix + [AT] == [prefix[0]] + (prefix[1..] + [AT]);
      HoldsSplit(blob, p, [prefix[0]], prefix[1..] + [AT]);
      FindsAt(blob, p + 1, hi, prefix[1..]);
    }
  }

  // ---------- any hexadecimal unit address ----------

  /** Character `c` is a hexadecimal digit of value `d`, in either case. */
  predicate DigitOf(c: byte, d: nat) {
    d < 16 && (c == "0123456789abcdef"[d] as int || c == "0123456789ABCDEF"[d] as int)
  }

  /** The digits weighted by powers of 16, the last one by 1. */
  function Weighted(ds: seq<nat>): nat {
    if ds == [] then 0 else ds[0] * Pow16(|ds| - 1) + Weighted(ds[1..])
  }

  lemma DigitsAreRead(c: byte, d: nat)
    ensures DigitOf(c, d) <==> HexDigit(c) == Some(d)
  {
  }

  lemma DigitsAreSmall(c: byte, d: nat)
    requires DigitOf(c, d)
    ensures d < 16
  {
  }

  /** A multiple of the word range makes no difference. */
  lemma Wraps(x: nat, t: nat)
    ensures (x + WORD_MOD * t) % WORD_MOD == x % WORD_MOD
  {
  }

  lemma WrapsEarly(x: nat, y: nat, z: nat)
    ensures (x % WORD_MOD * y + z) % WORD_MOD == (x * y + z) % WORD_MOD
  {
    var t, r := x / WORD_MOD, x % WORD_MOD;
    Multiple(t, r, y);
    Wraps(r * y + z, t * y);
  }

  lemma Multiple(t: nat, r: nat, y: nat)
    ensures (WORD_MOD * t + r) * y == WORD_MOD * (t * y) + r * y
  {
  }

  lemma FirstDigit(addr: nat, d: nat, k: nat)
    requires k > 0
    ensures (addr * 16 + d) * Pow16(k - 1) == addr * Pow16(k) + d * Pow16(k - 1)
  {
    Scale(addr, k);
    assert (addr * 16 + d) * Pow16(k - 1) == 16 * (addr * Pow16(k - 1)) + d * Pow16(k - 1);
  }

  lemma ShiftIn(addr: nat, d: nat)
    ensures (addr * 16 % WORD_MOD + d) % WORD_MOD == (addr * 16 + d) % WORD_MOD
  {
  }

  lemma AtDigit(blob: seq<byte>, p: nat, hi: nat, addr: nat, d: nat)
    requires p < hi <= |blob| && DigitOf(blob[p], d)
    ensures HexFrom(blob, p, hi, addr) == HexFrom(blob, p + 1, hi, (addr * 16 + d) % WORD_MOD)
  {
    hide DigitOf, HexDigit;
    DigitsAreRead(blob[p], d);
    NulIsNoDigit(d);
    ShiftIn(addr, d);
  }

  lemma NulIsNoDigit(d: nat)
    ensures !DigitOf(0, d)
  {
  }

  /** Reading digits adds their weighted sum to the address before them, modulo the word range. */
  lemma {:induction false} ReadsAnyDigits(blob: seq<byte>, p: nat, hi: nat, ds: seq<nat>, addr: nat)
    requires p + |ds| <= hi <= |blob| && forall i :: 0 <= i < |ds| ==> DigitOf(blob[p + i], ds[i])
    requires addr < WORD_MOD
    ensures HexFrom(blob, p, hi, addr) ==
            HexFrom(blob, p + |ds|, hi, (addr * Pow16(|ds|) + Weighted(ds)) % WORD_MOD)
    decreases |ds|
  {
    hide HexFrom, DigitOf, Weighted, Pow16;
    if ds == [] {
      NoDigits(addr);
    } else {
      var rest, high := ds[1..], addr * 16 + ds[0];
      assert DigitOf(blob[p + 0], ds[0]);
      AtDigit(blob, p, hi, addr, ds[0]);
      forall i | 0 <= i < |rest| ensures DigitOf(blob[p + 1 + i], rest[i]) {
        assert DigitOf(blob[p + (i + 1)], ds[i + 1]);
      }
      ReadsAnyDigits(blob, p + 1, hi, rest, high % WORD_MOD);
      WrapsEarly(high, Pow16(|rest|), Weighted(rest));
      FirstDigit(addr, ds[0], |ds|);
      WeightedFirst(ds);
    }
  }

  lemma NoDigits(addr: nat)
    requires addr < WORD_MOD
    ensures Weighted([]) == 0 && Pow16(0) == 1 && (addr * Pow16(0) + Weighted([])) % WORD_MOD == addr
  {
  }

  lemma WeightedFirst(ds: seq<nat>)
    requires ds != []
    ensures Weighted(ds) == ds[0] * Pow16(|ds| - 1) + Weighted(ds[1..])
  {
  }

  lemma AtEnd(blob: seq<byte>, p: nat, hi: nat, addr: nat)
    requires p <= hi <= |blob| && (p < hi ==> blob[p] == 0 || forall d :: !DigitOf(blob[p], d))
    ensures HexFrom(blob, p, hi, addr) ==
            if p == hi then None else if blob[p] == 0 then Some(addr) else Some(addr * 16 % WORD_MOD)
  {
    hide DigitOf, HexDigit;
    if p < hi && HexDigit(blob[p]).Some? {
      DigitsAreRead(blob[p], HexDigit(blob[p]).value);
    }
  }

  lemma {:induction false} StopsAt(blob: seq<byte>, p: nat, hi: nat, at: nat)
    requires p <= at < hi <= |blob| && (blob[at] == '@' as int || blob[at] == 0)
    requires forall i :: p <= i < at ==> blob[i] != '@' as int && blob[i] != 0
    ensures FindAt(blob, p, hi) == Some(at)
    decreases at - p
  {
    if p < at {
      StopsAt(blob, p + 1, hi, at);
    }
  }

  lemma {:induction false} StopsNowhere(blob: seq<byte>, p: nat, hi: nat)
    requires hi <= |blob| && forall i :: p <= i < hi ==> blob[i] != '@' as int && blob[i] != 0
    ensures UnitAddress(blob, p, hi) == None
    decreases hi - p
  {
    if p < hi {
      StopsNowhere(blob, p + 1, hi);
    }
  }

  /** `parse_dtb_unit_name` on every input. It goes to the first `@` or NUL, at `at`, and reads the
      digits `ds` behind it, as many as there are. Ended by a NUL they give their weighted sum, modulo
      the word range, which 16 digits do not exceed. Another character that is no digit shifts the
      sum by one digit more. The end of the block before that is a fault. */
  lemma UnitAddressIs(blob: seq<byte>, p: nat, hi: nat, at: nat, ds: seq<nat>)
    requires p <= at < hi <= |blob| && (blob[at] == '@' as int || blob[at] == 0)
    requires forall i :: p <= i < at ==> blob[i] != '@' as int && blob[i] != 0
    requires at + 1 + |ds| <= hi && forall i :: 0 <= i < |ds| ==> DigitOf(blob[at + 1 + i], ds[i])
    requires var e := at + 1 + |ds|; e < hi ==> blob[e] == 0 || forall d :: !DigitOf(blob[e], d)
    ensures var e, sum := at + 1 + |ds|, Weighted(ds);
            && (e == hi ==> UnitAddress(blob, p, hi) == None)
            && (e < hi && blob[e] == 0 ==> UnitAddress(blob, p, hi) == Some(sum % WORD_MOD))
            && (e < hi && blob[e] != 0 ==> UnitAddress(blob, p, hi) == Some(sum * 16 % WORD_MOD))
            && (|ds| <= 16 ==> sum % WORD_MOD == sum)
  {
    hide HexFrom, FindAt, DigitOf, Weighted, Pow16;
    StopsAt(blob, p, hi, at);
    ReadsAnyDigits(blob, at + 1, hi, ds, 0);
    var sum := Weighted(ds);
    AtEnd(blob, at + 1 + |ds|, hi, sum % WORD_MOD);
    WrapsEarly(sum, 16, 0);
    if |ds| <= 16 {
      forall i | 0 <= i < |ds| ensures ds[i] < 16 {
        DigitsAreSmall(blob[at + 1 + i], ds[i]);
      }
      WeightedFits(ds);
      Pow16Is64Bits();
      Pow16Grows(|ds|, 16);
    }
  }

  lemma {:induction false} WeightedFits(ds: seq<nat>)
    requires forall i :: 0 <= i < |ds| ==> ds[i] < 16
    ensures Weighted(ds) < Pow16(|ds|)
  {
    hide Weighted;
    if ds == [] {
      NoDigits(0);
    } else {
      WeightedFits(ds[1..]);
      WeightedFirst(ds);
      Below16(ds[0], Pow16(|ds| - 1));
    }
  }

  lemma Below16(d: nat, weight: nat)
    requires d < 16
    ensures d * weight + weight <= 16 * weight
  {
    assert (15 - d) * weight >= 0;
  }

  lemma {:induction false} Pow16Grows(j: nat, k: nat)
    requires j <= k
    ensures Pow16(j) <= Pow16(k)
    decreases k
  {
    if j < k {
      Pow16Grows(j, k - 1);
    }
  }

  // ---------- decimal ----------

  function Pow10(k: nat): (r: nat)
    ensures r > 0
  {
    if k == 0 then 1 else 10 * Pow10(k - 1)
  }

  /** The number that a string of decimal digits denotes. */
  function Denotes(s: seq<byte>): int {
    if s == [] then 0 else Denotes(s[..|s| - 1]) * 10 + (s[|s| - 1] as int - 48)
  }

  ghost predicate Decimal(s: seq<byte>) {
    forall i :: 0 <= i < |s| ==> 48 <= s[i] <= 57
  }

  function Reversed(s: seq<byte>): (r: seq<byte>)
    ensures |r| == |s|
  {
    if s == [] then [] else [s[|s| - 1]] + Reversed(s[..|s| - 1])
  }

  /** Digits `s` that end in digits of lower weight. */
  lemma {:induction false} DenotesAppend(a: seq<byte>, b: seq<byte>)
    ensures Denotes(a + b) == Denotes(a) * Pow10(|b|) + Denotes(b)
    decreases |b|
  {
    if b == [] {
      assert a + b == a;
    } else {
      var b', d := b[..|b| - 1], b[|b| - 1] as int - 48;
      assert (a + b)[..|a + b| - 1] == a + b';
      DenotesAppend(a, b');
      assert (Denotes(a) * Pow10(|b'|) + Denotes(b')) * 10 + d ==
             Denotes(a) * (10 * Pow10(|b'|)) + (Denotes(b') * 10 + d);
    }
  }

  lemma {:induction false} ReversedAppend(s: seq<byte>, c: byte)
    ensures Reversed(s + [c]) == [c] + Reversed(s)
  {
    assert (s + [c])[..|s|] == s;
  }

  lemma {:induction false} ReversedDecimal(s: seq<byte>)
    requires Decimal(s)
    ensures Decimal(Reversed(s))
  {
    if s != [] {
      ReversedDecimal(s[..|s| - 1]);
    }
  }

  /** The number that `num` still to convert stands for in front of the digits `s`, lowest first. */
  ghost function Standing(num: nat, s: seq<byte>): int {
    num * Pow10(|s|) + Denotes(Reversed(s))
  }

  /** One pass of the digit loop moves the lowest digit of `num` to the end of the buffer. */
  lemma DigitStep(num: nat, s: seq<byte>)
    ensures Standing(num / 10, s + [48 + num % 10]) == Standing(num, s)
  {
    hide Denotes, Pow10;
    var c: byte := 48 + num % 10;
    ReversedAppend(s, c);
    DenotesAppend([c], Reversed(s));
    DenotesOne(c);
    Regroup(num, |s|);
  }

  lemma DenotesOne(c: byte)
    ensures Denotes([c]) == c as int - 48
  {
    assert [c][..0] == [];
  }

  lemma Regroup(num: nat, k: nat)
    ensures num / 10 * Pow10(k + 1) + num % 10 * Pow10(k) == num * Pow10(k)
  {
    Factor(num / 10, num % 10, Pow10(k));
  }

  lemma Factor(q: nat, r: nat, p: nat)
    ensures q * (10 * p) + r * p == (10 * q + r) * p
  {
  }

  lemma OneDigitLess(num: nat, k: nat)
    requires 0 < num < Pow10(k)
    ensures k > 0 && num / 10 < Pow10(k - 1)
  {
  }

  lemma TwentyDigits()
    ensures WORD_MOD <= Pow10(20)
  {
    assert Pow10(5) == 10_0000;
    assert Pow10(10) == 100_0000_0000;
    assert Pow10(15) == 1000_0000_0000_0000;
  }

  /** The first loop of `uart_dec64`: the twenty cells suffice, and the digits stand lowest first. */
  method FillDigits(buffer: array<byte>, v: nat) returns (i: nat)
    requires 0 < v < WORD_MOD && buffer.Length == 20
    modifies buffer
    ensures 1 <= i <= 20 && Decimal(buffer[..i]) && buffer[i - 1] != 48
    ensures Denotes(Reversed(buffer[..i])) == v
  {
    hide Denotes, Pow10, Reversed, Standing;
    i := 0;
    var num: nat := v;
    TwentyDigits();
    Empty(v);
    assert buffer[..0] == [];
    while num > 0
      invariant i <= 20 && num < Pow10(20 - i)
      invariant Decimal(buffer[..i]) && Standing(num, buffer[..i]) == v
      invariant num == 0 ==> i > 0 && buffer[i - 1] != 48
      decreases num
    {
      DigitStep(num, buffer[..i]);
      OneDigitLess(num, 20 - i);
      ghost var s := buffer[..i];
      buffer[i] := 48 + num % 10;
      num := num / 10;
      i := i + 1;
      assert buffer[..i] == s + [buffer[i - 1]];
    }
    Done(buffer[..i]);
  }

  lemma Empty(v: nat)
    ensures Standing(v, []) == v
  {
  }

  lemma Done(s: seq<byte>)
    ensures Standing(0, s) == Denotes(Reversed(s))
  {
  }

  /** The second loop of `uart_dec64` prints the buffer from its last cell to its first. */
  method PrintBackwards(buffer: array<byte>, i: nat) returns (out: seq<byte>)
    requires i <= buffer.Length
    ensures out == Reversed(buffer[..i])
  {
    out := [];
    var j := i;
    while j > 0
      invariant 0 <= j <= i && out + Reversed(buffer[..j]) == Reversed(buffer[..i])
    {
      j := j - 1;
      assert buffer[..j + 1][..j] == buffer[..j];
      assert out + ([buffer[j]] + Reversed(buffer[..j])) == out + [buffer[j]] + Reversed(buffer[..j]);
      out := out + [buffer[j]];
    }
  }

  /** `uart_dec64`: its twenty buffer cells suffice for every 64-bit number, and the digits it prints
      denote the number, without a leading zero. */
  method PrintDec64(v: nat) returns (out: seq<byte>)
    requires v < WORD_MOD
    ensures Decimal(out) && Denotes(out) == v && 1 <= |out| <= 20
    ensures v > 0 ==> out[0] != 48
  {
    if v == 0 {
      DenotesOne(48);
      return [48];
    }
    var buffer := new byte[20](_ => 0);
    var i := FillDigits(buffer, v);
    ReversedDecimal(buffer[..i]);
    out := PrintBackwards(buffer, i);
  }
}
