/** The devicetree routines as the loops of the code, against the functions of Devicetree. */
module DevicetreeWalker {
  import opened Basics
  import opened Devicetree

  // ---------- byte order ----------

  function Pow256(k: nat): nat {
    if k == 0 then 1 else 256 * Pow256(k - 1)
  }

  /** Byte `k` of a word, counted from the low end. */
  function ByteOf(w: nat, k: nat): nat {
    if k == 0 then w % 256 else ByteOf(w / 256, k - 1)
  }

  /** The word built from the `k` highest bytes of `w`, the highest byte lowest. */
  function Swapped(w: nat, k: nat): nat
    requires k <= 4
  {
    if k == 0 then 0 else Swapped(w, k - 1) + ByteOf(w, 4 - k) * Pow256(k - 1)
  }

  /** A little-endian 32-bit load. */
  function LoadLe(blob: seq<byte>, p: nat): nat
    requires p + 4 <= |blob|
  {
    blob[p] + 256 * (blob[p + 1] + 256 * (blob[p + 2] + 256 * blob[p + 3] as int))
  }

  /** `BE2LE`: the fields are disjoint, so the code's OR is a sum. */
  method Be2Le(be: nat) returns (le: nat)
    ensures le == Swapped(be, 4)
  {
    le := 0;
    var k := 0;
    while k < 4
      invariant k <= 4 && le == Swapped(be, k)
    {
      le := le + ByteOf(be, 3 - k) * Pow256(k);
      k := k + 1;
    }
  }

  /** Swapping a little-endian load of a big-endian field gives the field. */
  lemma SwapReadsBe(blob: seq<byte>, p: nat)
    requires p + 4 <= |blob|
    ensures Swapped(LoadLe(blob, p), 4) == ReadBe(blob, p)
  {
    var b0: int, b1: int, b2: int, b3: int := blob[p], blob[p + 1], blob[p + 2], blob[p + 3];
    var w := LoadLe(blob, p);
    BytesOf(w, b0, b1, b2, b3);
    assert Swapped(w, 4) == b3 + b2 * 256 + b1 * 0x1_0000 + b0 * 0x100_0000 by { SwappedIs(w); }
  }

  lemma BytesOf(w: nat, b0: nat, b1: nat, b2: nat, b3: nat)
    requires b0 < 256 && b1 < 256 && b2 < 256 && b3 < 256 && w == b0 + 256 * (b1 + 256 * (b2 + 256 * b3))
    ensures ByteOf(w, 0) == b0 && ByteOf(w, 1) == b1 && ByteOf(w, 2) == b2 && ByteOf(w, 3) == b3
  {
    hide ByteOf;
    Div256(w, b1 + 256 * (b2 + 256 * b3), b0);
    Div256(w / 256, b2 + 256 * b3, b1);
    Div256(w / 256 / 256, b3, b2);
    Div256(b3, 0, b3);
    LowByte(w);
    LowByte(w / 256);
    LowByte(w / 256 / 256);
    LowByte(b3);
    NextByte(w, 1);
    NextByte(w, 2);
    NextByte(w / 256, 1);
    NextByte(w, 3);
    NextByte(w / 256, 2);
    NextByte(w / 256 / 256, 1);
  }

  lemma LowByte(w: nat)
    ensures ByteOf(w, 0) == w % 256
  {
  }

  lemma NextByte(w: nat, k: nat)
    requires k > 0
    ensures ByteOf(w, k) == ByteOf(w / 256, k - 1)
  {
  }

  lemma SwappedIs(w: nat)
    ensures Swapped(w, 4) == ByteOf(w, 3) + ByteOf(w, 2) * 256 + ByteOf(w, 1) * 0x1_0000 + ByteOf(w, 0) * 0x100_0000
  {
    hide ByteOf;
    assert Pow256(1) == 256 && Pow256(2) == 0x1_0000 && Pow256(3) == 0x100_0000;
    assert Swapped(w, 1) == ByteOf(w, 3) && Swapped(w, 2) == Swapped(w, 1) + ByteOf(w, 2) * 256;
    assert Swapped(w, 3) == Swapped(w, 2) + ByteOf(w, 1) * 0x1_0000;
  }

  /** A big-endian field as the code reads it. */
  method ReadField(blob: seq<byte>, p: nat) returns (v: nat)
    requires p + 4 <= |blob|
    ensures v == ReadBe(blob, p)
  {
    SwapReadsBe(blob, p);
    v := Be2Le(LoadLe(blob, p));
  }

  // ---------- strings ----------

  /** `string_len`, with None for a read at `hi`. */
  method StrLen(blob: seq<byte>, p: nat, hi: nat) returns (r: Option<nat>)
    requires hi <= |blob|
    ensures r == StringLen(blob, p, hi)
    ensures r.Some? ==> p + r.value < hi && (blob[p + r.value] == 0 || blob[p + r.value] == '\n' as int)
    ensures forall i :: p <= i < (if r.Some? then p + r.value else hi) ==> blob[i] != 0 && blob[i] != '\n' as int
  {
    var i := 0;
    while p + i < hi
      invariant forall j :: p <= j < p + i && j < hi ==> blob[j] != 0 && blob[j] != '\n' as int
      invariant StringLen(blob, p, hi) ==
                match StringLen(blob, p + i, hi) { case None => None case Some(n) => Some(n + i) }
    {
      if blob[p + i] == 0 || blob[p + i] == NEWLINE {
        return Some(i);
      }
      i := i + 1;
    }
    return None;
  }

  /** `parse_dtb_unit_name`: skip to the `@` or the NUL, step over it, read hexadecimal digits. */
  method ParseUnitName(blob: seq<byte>, start: nat, hi: nat) returns (r: Option<nat>)
    requires hi <= |blob|
    ensures r == UnitAddress(blob, start, hi)
  {
    var p := start;
    while p < hi && blob[p] != AT && blob[p] != 0
      invariant FindAt(blob, p, hi) == FindAt(blob, start, hi)
      decreases hi - p
    {
      p := p + 1;
    }
    if p >= hi {
      return None;
    }
    p := p + 1;
    var addr: nat := 0;
    while p < hi && blob[p] != 0
      invariant HexFrom(blob, p, hi, addr) == UnitAddress(blob, start, hi)
      decreases hi - p
    {
      addr := addr * 16 % WORD_MOD;
      var d := HexDigit(blob[p]);
      if d.None? {
        return Some(addr);
      }
      addr := (addr + d.value) % WORD_MOD;
      p := p + 1;
    }
    return if p >= hi then None else Some(addr);
  }

  // ---------- the token loop ----------

  /** One turn of the walk, at a token that lies in the block. */
  lemma WalkTurn(blob: seq<byte>, base: nat, p: nat, hi: nat)
    requires p + 4 <= hi <= |blob|
    ensures var token, q, w := ReadBe(blob, p), p + 4, Walk(blob, base, p, hi);
            && (token == 4 || token == 2 || token == 9 ==> w == Walk(blob, base, q, hi))
            && (token == 1 ==>
                  var n := StringLen(blob, q, hi);
                  if n.None? || UnitAddress(blob, q, hi).None? then w == ([], Fault)
                  else w == Walk(blob, base, q + n.value + 1 + AlignOffset(base + q + n.value + 1), hi))
            && (token == 3 ==> if q + 4 > hi then w == ([], Fault)
                               else w == WalkValue(blob, base, q + 8, ReadBe(blob, q), hi))
            && (token !in {1, 2, 3, 4, 9} ==> w == ([], Unknown(q)))
  {
    hide ReadBe, StringLen, UnitAddress, AlignOffset;
  }

  /** The walk from a property value of `len` bytes on. */
  function WalkValue(blob: seq<byte>, base: nat, v: nat, len: nat, hi: nat): (seq<Call>, Ending)
    requires hi <= |blob|
  {
    var rest := Walk(blob, base, v + len + AlignOffset(base + v + len), hi);
    if len > 0 then ([Call(v, len)] + rest.0, rest.1) else rest
  }

  lemma WalkOver(blob: seq<byte>, base: nat, p: nat, hi: nat)
    requires hi <= |blob| && (p >= hi || p + 4 > hi)
    ensures Walk(blob, base, p, hi) == ([], if p >= hi then Completed(p) else Fault)
  {
  }

  /** `fdt_traverse` over a blob at address `base`; the calls are those made to the callback. */
  method FdtTraverse(blob: seq<byte>, base: nat) returns (r: Result)
    requires |blob| >= 40 && (ReadBe(blob, 0) == MAGIC ==> ReadBe(blob, 8) + ReadBe(blob, 36) <= |blob|)
    ensures r == Traverse(blob, base)
    ensures r.BadMagic? <==> ReadBe(blob, 0) != 0xd00d_feed
  {
    hide ReadBe, StringLen, UnitAddress, AlignOffset, Walk;
    var magic := ReadField(blob, 0);
    if magic != MAGIC {
      return BadMagic;
    }
    var size := ReadField(blob, 36);
    var lo := ReadField(blob, 8);
    var hi, p := lo + size, lo;
    var calls: seq<Call> := [];
    assert [] + Walk(blob, base, lo, hi).0 == Walk(blob, base, lo, hi).0;
    while p < hi
      invariant Walk(blob, base, lo, hi) == (calls + Walk(blob, base, p, hi).0, Walk(blob, base, p, hi).1)
      decreases hi - p
    {
      if p + 4 > hi {
        WalkOver(blob, base, p, hi);
        return Walked(calls, Fault);
      }
      WalkTurn(blob, base, p, hi);
      var token := ReadField(blob, p);
      var q := p + 4;
      if token == 4 || token == 2 || token == 9 {
        p := q;
      } else if token == 1 {
        var n := StrLen(blob, q, hi);
        var unit := ParseUnitName(blob, q, hi);
        if n.None? || unit.None? {
          return Walked(calls, Fault);
        }
        q := q + n.value + 1;
        p := q + AlignOffset(base + q);
      } else if token == 3 {
        if q + 4 > hi {
          return Walked(calls, Fault);
        }
        var len := ReadField(blob, q);
        q := q + 8;
        if len > 0 {
          ghost var rest := Walk(blob, base, q + len + AlignOffset(base + q + len), hi).0;
          assert calls + ([Call(q, len)] + rest) == calls + [Call(q, len)] + rest;
          calls := calls + [Call(q, len)];
          q := q + len;
        }
        p := q + AlignOffset(base + q);
      } else {
        return Walked(calls, Unknown(q));
      }
    }
    WalkOver(blob, base, p, hi);
    return Walked(calls, Completed(p));
  }
}
