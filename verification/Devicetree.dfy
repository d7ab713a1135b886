/**
 The flattened devicetree: the structure block as section 5.4 of the Devicetree Specification
 (v0.4) defines it, and what the kernel's walker makes of it. Any read outside the structure
 block is a fault in the walk.
 */
module Devicetree {
  import opened Basics

  // ---------- the format ----------

  datatype Property = Property(nameoff: nat, value: seq<byte>)
  datatype Node = Node(name: seq<byte>, props: seq<Property>, children: seq<Node>)

  datatype Token = Begin(name: seq<byte>) | Prop(prop: Property) | EndNode | Nop | End

  function PropTokens(ps: seq<Property>): seq<Token> {
    if ps == [] then [] else [Prop(ps[0])] + PropTokens(ps[1..])
  }

  /** A node: its name, its properties, its children, its end. */
  function NodeTokens(n: Node): seq<Token> {
    [Begin(n.name)] + PropTokens(n.props) + ForestTokens(n.children) + [EndNode]
  }

  function ForestTokens(ns: seq<Node>): seq<Token> {
    if ns == [] then [] else NodeTokens(ns[0]) + ForestTokens(ns[1..])
  }

  function WithoutNops(ts: seq<Token>): seq<Token> {
    if ts == [] then []
    else if ts[0].Nop? then WithoutNops(ts[1..])
    else [ts[0]] + WithoutNops(ts[1..])
  }

  /** A structure block of a tree: its tokens and the end token, with NOPs anywhere but after the end. */
  ghost predicate StructureOf(ts: seq<Token>, root: Node) {
    WithoutNops(ts) == NodeTokens(root) + [End] && ts != [] && ts[|ts| - 1] == End
  }

  /** The non-empty property values of a tree, in document order. */
  function ValuesOf(ps: seq<Property>): seq<seq<byte>> {
    if ps == [] then [] else (if ps[0].value == [] then [] else [ps[0].value]) + ValuesOf(ps[1..])
  }

  function TreeValues(n: Node): seq<seq<byte>> {
    ValuesOf(n.props) + ForestValues(n.children)
  }

  function ForestValues(ns: seq<Node>): seq<seq<byte>> {
    if ns == [] then [] else TreeValues(ns[0]) + ForestValues(ns[1..])
  }

  function Be32(v: nat): (b: seq<byte>)
    ensures |b| == 4
  {
    [v / 0x100_0000 % 0x100, v / 0x1_0000 % 0x100, v / 0x100 % 0x100, v % 0x100]
  }

  function Up4(n: nat): nat {
    (n + 3) / 4 * 4
  }

  function Zeros(n: nat): (z: seq<byte>)
    ensures |z| == n && forall i :: 0 <= i < n ==> z[i] == 0
  {
    seq(n, _ => 0)
  }

  function Padded(s: seq<byte>): (r: seq<byte>)
    ensures |r| == Up4(|s|) && s <= r
  {
    s + Zeros(Up4(|s|) - |s|)
  }

  function Encode(t: Token): (b: seq<byte>)
    ensures |b| >= 4
  {
    match t
    case Begin(name) => Be32(1) + Padded(name + [0])
    case Prop(p) => Be32(3) + Be32(|p.value|) + Be32(p.nameoff) + Padded(p.value)
    case EndNode => Be32(2)
    case Nop => Be32(4)
    case End => Be32(9)
  }

  function EncodeAll(ts: seq<Token>): seq<byte> {
    if ts == [] then [] else Encode(ts[0]) + EncodeAll(ts[1..])
  }

  /** Names have no NUL and lengths fit 32 bits. */
  predicate TokenOk(t: Token) {
    match t
    case Begin(name) => forall i :: 0 <= i < |name| ==> name[i] != 0
    case Prop(p) => |p.value| < 0x1_0000_0000 && p.nameoff < 0x1_0000_0000
    case _ => true
  }

  ghost predicate TokensOk(ts: seq<Token>) {
    forall i {:trigger ts[i]} :: 0 <= i < |ts| ==> TokenOk(ts[i])
  }

  // ---------- the walk ----------

  /** A callback with a pointer into the blob and a length. */
  datatype Call = Call(at: nat, len: nat)

  /** How the walk ends: at the end of the block, at an unknown token, or in a read outside it. */
  datatype Ending = Completed(p: nat) | Unknown(p: nat) | Fault

  function ReadBe(blob: seq<byte>, p: nat): (r: nat)
    requires p + 4 <= |blob|
  {
    blob[p] as int * 0x100_0000 + blob[p + 1] as int * 0x1_0000 + blob[p + 2] as int * 0x100 + blob[p + 3]
  }

  const NEWLINE: byte := 10
  const AT: byte := 64

  /** `string_len`: up to the first NUL or newline; None when there is none before `hi`. */
  function StringLen(blob: seq<byte>, p: nat, hi: nat): (r: Option<nat>)
    requires hi <= |blob|
    ensures r.Some? ==> p + r.value < hi
    decreases hi - p
  {
    if p >= hi then None
    else if blob[p] == 0 || blob[p] == NEWLINE then Some(0)
    else match StringLen(blob, p + 1, hi) case None => None case Some(n) => Some(n + 1)
  }

  /** The search of `parse_dtb_unit_name` for an `@`. */
  function FindAt(blob: seq<byte>, p: nat, hi: nat): (r: Option<nat>)
    requires hi <= |blob|
    ensures r.Some? ==> p <= r.value < hi
    decreases hi - p
  {
    if p >= hi then None
    else if blob[p] == AT || blob[p] == 0 then Some(p)
    else FindAt(blob, p + 1, hi)
  }

  function HexDigit(c: byte): Option<nat> {
    if 48 <= c <= 57 then Some(c - 48)
    else if 97 <= c <= 102 then Some(c - 97 + 10)
    else if 65 <= c <= 70 then Some(c - 65 + 10)
    else None
  }

  /** Its digit loop, which shifts before it looks at the character. */
  function HexFrom(blob: seq<byte>, p: nat, hi: nat, addr: nat): Option<nat>
    requires hi <= |blob|
    decreases hi - p
  {
    if p >= hi then None
    else if blob[p] == 0 then Some(addr)
    else
      var shifted := addr * 16 % WORD_MOD;
      match HexDigit(blob[p])
      case None => Some(shifted)
      case Some(d) => HexFrom(blob, p + 1, hi, (shifted + d) % WORD_MOD)
  }

  function UnitAddress(blob: seq<byte>, p: nat, hi: nat): Option<nat>
    requires hi <= |blob|
  {
    match FindAt(blob, p, hi) case None => None case Some(q) => HexFrom(blob, q + 1, hi, 0)
  }

  /** `align_mem_offset(address, 4)` */
  function AlignOffset(address: nat): nat {
    (4 - address % 4) % 4
  }

  function Then(c: Call, rest: (seq<Call>, Ending)): (seq<Call>, Ending) {
    ([c] + rest.0, rest.1)
  }

  /** The token loop from position `p` of a blob that lies at address `base`, with the structure block
      ending at `hi`. */
  function Walk(blob: seq<byte>, base: nat, p: nat, hi: nat): (seq<Call>, Ending)
    requires hi <= |blob|
    decreases hi - p
  {
    if p >= hi then ([], Completed(p))
    else if p + 4 > hi then ([], Fault)
    else
      var token, q := ReadBe(blob, p), p + 4;
      if token == 4 || token == 2 || token == 9 then Walk(blob, base, q, hi)
      else if token == 1 then
        match StringLen(blob, q, hi)
        case None => ([], Fault)
        case Some(n) =>
          if UnitAddress(blob, q, hi).None? then ([], Fault)
          else Walk(blob, base, q + n + 1 + AlignOffset(base + q + n + 1), hi)
      else if token == 3 then
        if q + 4 > hi then ([], Fault)
        else
          var len, v := ReadBe(blob, q), q + 8;
          var next := v + len + AlignOffset(base + v + len);
          if len > 0 then Then(Call(v, len), Walk(blob, base, next, hi)) else Walk(blob, base, next, hi)
      else ([], Unknown(q))
  }

  const MAGIC: nat := 0xd00d_feed

  datatype Result = BadMagic | Walked(calls: seq<Call>, end: Ending)

  /** `fdt_traverse`: header check, then the walk over the structure block. */
  function Traverse(blob: seq<byte>, base: nat): Result
    requires |blob| >= 40 && (ReadBe(blob, 0) == MAGIC ==> ReadBe(blob, 8) + ReadBe(blob, 36) <= |blob|)
  {
    if ReadBe(blob, 0) != MAGIC then BadMagic
    else
      var lo, size := ReadBe(blob, 8), ReadBe(blob, 36);
      var (calls, end) := Walk(blob, base, lo, lo + size);
      Walked(calls, end)
  }

  // ---------- names ----------

  /** Where `string_len` stops in a name. */
  function Stop(name: seq<byte>): (n: nat)
    ensures n <= |name|
    ensures n < |name| ==> name[n] == '\n' as int
    ensures forall i :: 0 <= i < n ==> name[i] != '\n' as int
  {
    if name == [] || name[0] == '\n' as int then 0 else 1 + Stop(name[1..])
  }

  /** No newline, or one so close to the end that the padded length does not notice. */
  predicate SafeName(name: seq<byte>) {
    Up4(Stop(name) + 1) == Up4(|name| + 1)
  }

  predicate Safe(t: Token) {
    t.Begin? ==> SafeName(t.name)
  }

  ghost predicate AllSafe(ts: seq<Token>) {
    forall i {:trigger ts[i]} :: 0 <= i < |ts| ==> Safe(ts[i])
  }

  // ---------- reading what was written ----------

  /** The blob holds `bytes` at position `p`. */
  ghost predicate Holds(blob: seq<byte>, p: nat, bytes: seq<byte>) {
    p + |bytes| <= |blob| && blob[p..p + |bytes|] == bytes
  }

  lemma HoldsAt(blob: seq<byte>, p: nat, bytes: seq<byte>, i: nat)
    requires Holds(blob, p, bytes) && i < |bytes|
    ensures blob[p + i] == bytes[i]
  {
    assert blob[p..p + |bytes|][i] == blob[p + i];
  }

  lemma HoldsSplit(blob: seq<byte>, p: nat, a: seq<byte>, b: seq<byte>)
    requires Holds(blob, p, a + b)
    ensures Holds(blob, p, a) && Holds(blob, p + |a|, b)
  {
    var s := blob[p..p + |a + b|];
    assert s[..|a|] == blob[p..p + |a|] && s[|a|..] == blob[p + |a|..p + |a| + |b|];
    assert (a + b)[..|a|] == a && (a + b)[|a|..] == b;
  }

  lemma ReadsBack(blob: seq<byte>, p: nat, v: nat)
    requires Holds(blob, p, Be32(v)) && v < 0x1_0000_0000
    ensures ReadBe(blob, p) == v
  {
    HoldsAt(blob, p, Be32(v), 0);
    HoldsAt(blob, p, Be32(v), 1);
    HoldsAt(blob, p, Be32(v), 2);
    HoldsAt(blob, p, Be32(v), 3);
    Digits256(v);
  }

  lemma Digits256(v: nat)
    requires v < 0x1_0000_0000
    ensures v == v / 0x100_0000 % 0x100 * 0x100_0000 + v / 0x1_0000 % 0x100 * 0x1_0000
                 + v / 0x100 % 0x100 * 0x100 + v % 0x100
  {
    var a := v / 0x100;
    var b := a / 0x100;
    assert v / 0x1_0000 == b && v / 0x100_0000 == b / 0x100;
  }

  lemma AlignsUp(base: nat, q: nat, n: nat)
    requires (base + q) % 4 == 0
    ensures q + n + AlignOffset(base + q + n) == q + Up4(n)
  {
    assert (base + q + n) % 4 == n % 4;
  }

  lemma Up4Facts(n: nat)
    ensures Up4(n) % 4 == 0 && n <= Up4(n) < n + 4
  {
  }

  lemma EncodeAligned(t: Token)
    ensures |Encode(t)| % 4 == 0 && Encode(t)[0] == 0
  {
    match t
    case Begin(name) => Up4Facts(|name| + 1);
    case Prop(p) => Up4Facts(|p.value|);
    case _ =>
  }

  // ---------- one token ----------

  /** The block from `p` to `hi` starts with the encoding of `t` and goes on with another token. */
  ghost predicate StartsWith(blob: seq<byte>, base: nat, p: nat, hi: nat, t: Token) {
    && hi <= |blob| && (base + p) % 4 == 0 && TokenOk(t)
    && Holds(blob, p, Encode(t)) && p + |Encode(t)| <= hi
    && (t.Begin? ==> p + |Encode(t)| < hi && blob[p + |Encode(t)|] == 0)
  }

  lemma {:induction false} StringLenIs(blob: seq<byte>, p: nat, hi: nat, name: seq<byte>)
    requires hi <= |blob| && Holds(blob, p, name + [0]) && p + |name| + 1 <= hi
    requires forall i :: 0 <= i < |name| ==> name[i] != 0
    ensures StringLen(blob, p, hi) == Some(Stop(name))
    decreases |name|
  {
    HoldsAt(blob, p, name + [0], 0);
    if name != [] && name[0] != '\n' as int {
      assert name + [0] == [name[0]] + (name[1..] + [0]);
      HoldsSplit(blob, p, [name[0]], name[1..] + [0]);
      StringLenIs(blob, p + 1, hi, name[1..]);
    }
  }

  /** The `@` is looked for in the name only, and at worst the terminating NUL is found. */
  lemma {:induction false} FindAtInName(blob: seq<byte>, p: nat, hi: nat, name: seq<byte>)
    requires hi <= |blob| && Holds(blob, p, name + [0]) && p + |name| + 1 <= hi
    ensures FindAt(blob, p, hi).Some? && FindAt(blob, p, hi).value <= p + |name|
    decreases |name|
  {
    HoldsAt(blob, p, name + [0], 0);
    if name != [] && blob[p] != AT && blob[p] != 0 {
      assert name + [0] == [name[0]] + (name[1..] + [0]);
      HoldsSplit(blob, p, [name[0]], name[1..] + [0]);
      FindAtInName(blob, p + 1, hi, name[1..]);
    }
  }

  lemma {:induction false} HexStops(blob: seq<byte>, p: nat, hi: nat, z: nat, addr: nat)
    requires p <= z < hi <= |blob| && blob[z] == 0
    ensures HexFrom(blob, p, hi, addr).Some?
    decreases z - p
  {
    if blob[p] != 0 && HexDigit(blob[p]).Some? {
      HexStops(blob, p + 1, hi, z, (addr * 16 % WORD_MOD + HexDigit(blob[p]).value) % WORD_MOD);
    }
  }

  /** What the block holds at a node: the token, the name with its NUL, a zero byte behind it. */
  lemma NodeBytes(blob: seq<byte>, base: nat, p: nat, hi: nat, name: seq<byte>)
    requires StartsWith(blob, base, p, hi, Begin(name))
    ensures |Encode(Begin(name))| == 4 + Up4(|name| + 1)
    ensures p + 4 + Up4(|name| + 1) < hi <= |blob| && p + 4 + |name| + 2 <= hi && ReadBe(blob, p) == 1
    ensures TokenOk(Begin(name)) && Holds(blob, p + 4, Padded(name + [0]))
    ensures Holds(blob, p + 4, name + [0]) && blob[p + 4 + |name|] == 0 && blob[p + 4 + |name| + 1] == 0
  {
    hide Be32, ReadBe, Up4, Holds, Zeros;
    Up4Facts(|name| + 1);
    HoldsSplit(blob, p, Be32(1), Padded(name + [0]));
    ReadsBack(blob, p, 1);
    NameZeros(blob, p + 4, name);
  }

  lemma NameZeros(blob: seq<byte>, q: nat, name: seq<byte>)
    requires Holds(blob, q, Padded(name + [0])) && q + Up4(|name| + 1) < |blob| && blob[q + Up4(|name| + 1)] == 0
    ensures Holds(blob, q, name + [0]) && q + |name| + 1 < |blob|
    ensures blob[q + |name|] == 0 && blob[q + |name| + 1] == 0
  {
    hide Holds, Up4;
    var body := name + [0];
    Up4Facts(|body|);
    var pad := Zeros(Up4(|body|) - |body|);
    HoldsSplit(blob, q, body, pad);
    HoldsAt(blob, q, body, |name|);
    if |pad| > 0 {
      HoldsAt(blob, q + |body|, pad, 0);
    }
  }

  /** Reading the unit address stays inside the block: at worst it reads the first byte behind the
      name's NUL, which is padding or the leading zero of the next token. */
  lemma UnitInside(blob: seq<byte>, hi: nat, q: nat, name: seq<byte>)
    requires q + |name| + 2 <= hi <= |blob|
    requires Holds(blob, q, name + [0]) && blob[q + |name|] == 0 && blob[q + |name| + 1] == 0
    ensures UnitAddress(blob, q, hi).Some?
  {
    hide HexFrom, FindAt, Holds;
    FindAtInName(blob, q, hi, name);
    var at := FindAt(blob, q, hi).value;
    if at < q + |name| {
      HexStops(blob, at + 1, hi, q + |name|, 0);
    } else {
      HexStops(blob, at + 1, hi, at + 1, 0);
    }
  }

  /** After a node's name the walk goes on where the name, cut at a newline, would end. */
  lemma WalkName(blob: seq<byte>, base: nat, p: nat, hi: nat, name: seq<byte>)
    requires StartsWith(blob, base, p, hi, Begin(name))
    ensures Walk(blob, base, p, hi) == Walk(blob, base, p + 4 + Up4(Stop(name) + 1), hi)
  {
    hide HexFrom, FindAt, UnitAddress, StringLen, Up4, AlignOffset, Holds, Encode, ReadBe, Stop;
    NodeBytes(blob, base, p, hi, name);
    UnitInside(blob, hi, p + 4, name);
    StringLenIs(blob, p + 4, hi, name);
    AlignsUp(base, p + 4, Stop(name) + 1);
  }

  lemma PropBytes(blob: seq<byte>, base: nat, p: nat, hi: nat, prop: Property)
    requires StartsWith(blob, base, p, hi, Prop(prop))
    ensures |Encode(Prop(prop))| == 12 + Up4(|prop.value|) && p + 12 + |prop.value| <= hi <= |blob|
    ensures ReadBe(blob, p) == 3 && ReadBe(blob, p + 4) == |prop.value| && Holds(blob, p + 12, prop.value)
  {
    hide Be32, ReadBe, Up4;
    var n := |prop.value|;
    Up4Facts(n);
    HoldsSplit(blob, p, Be32(3) + Be32(n) + Be32(prop.nameoff), Padded(prop.value));
    HoldsSplit(blob, p, Be32(3) + Be32(n), Be32(prop.nameoff));
    HoldsSplit(blob, p, Be32(3), Be32(n));
    ReadsBack(blob, p, 3);
    ReadsBack(blob, p + 4, n);
    HoldsSplit(blob, p + 12, prop.value, Zeros(Up4(n) - n));
  }

  lemma WalkProp(blob: seq<byte>, base: nat, p: nat, hi: nat, prop: Property)
    requires StartsWith(blob, base, p, hi, Prop(prop))
    ensures var rest := Walk(blob, base, p + |Encode(Prop(prop))|, hi);
            Walk(blob, base, p, hi) == if prop.value == [] then rest else Then(Call(p + 12, |prop.value|), rest)
  {
    hide Up4, AlignOffset, StringLen, UnitAddress, Holds, Encode, ReadBe;
    PropBytes(blob, base, p, hi, prop);
    AlignsUp(base, p + 12, |prop.value|);
  }

  lemma WalkPlain(blob: seq<byte>, base: nat, p: nat, hi: nat, t: Token)
    requires StartsWith(blob, base, p, hi, t) && (t.EndNode? || t.Nop? || t.End?)
    ensures Walk(blob, base, p, hi) == Walk(blob, base, p + |Encode(t)|, hi)
  {
    hide StringLen, UnitAddress;
    ReadsBack(blob, p, if t.EndNode? then 2 else if t.Nop? then 4 else 9);
  }

  /** A newline too early in a name sends the walk into the rest of the name, where no word is a
      token: it starts with a character, or it is the zero word of the terminator. */
  lemma UnsafeNameStops(blob: seq<byte>, base: nat, p: nat, hi: nat, name: seq<byte>)
    requires StartsWith(blob, base, p, hi, Begin(name)) && !SafeName(name)
    ensures Walk(blob, base, p, hi).0 == [] && Walk(blob, base, p, hi).1.Unknown?
  {
    hide HexFrom, FindAt, UnitAddress, StringLen, Up4, Encode, ReadBe, Stop, Holds, StartsWith;
    WalkName(blob, base, p, hi, name);
    UnsafeWord(blob, base, p, hi, name);
  }

  lemma UnsafeWord(blob: seq<byte>, base: nat, p: nat, hi: nat, name: seq<byte>)
    requires StartsWith(blob, base, p, hi, Begin(name)) && !SafeName(name)
    ensures var q := p + 4 + Up4(Stop(name) + 1);
            q + 4 <= hi <= |blob| && (ReadBe(blob, q) == 0 || ReadBe(blob, q) >= 0x100_0000)
  {
    hide StartsWith, Encode, Up4, Stop, Holds, ReadBe, Padded, TokenOk;
    NodeBytes(blob, base, p, hi, name);
    StopsInName(|name|, Stop(name));
    NotAToken(blob, p + 4, name, Up4(Stop(name) + 1));
  }

  lemma NotAToken(blob: seq<byte>, q: nat, name: seq<byte>, w: nat)
    requires Holds(blob, q, Padded(name + [0])) && TokenOk(Begin(name))
    requires w <= |name| && q + w + 4 <= |blob| && (w == |name| ==> Up4(|name| + 1) == |name| + 4)
    ensures ReadBe(blob, q + w) == 0 || ReadBe(blob, q + w) >= 0x100_0000
  {
    hide Holds, Up4;
    var all := Padded(name + [0]);
    HoldsAt(blob, q, all, w);
    if w < |name| {
      assert all[w] == name[w];
    } else {
      HoldsAt(blob, q, all, w + 1);
      HoldsAt(blob, q, all, w + 2);
      HoldsAt(blob, q, all, w + 3);
      assert all[w] == 0 && all[w + 1] == 0 && all[w + 2] == 0 && all[w + 3] == 0;
    }
  }

  lemma StopsInName(len: nat, stop: nat)
    requires stop <= len && Up4(stop + 1) != Up4(len + 1)
    ensures Up4(stop + 1) <= len && Up4(stop + 1) + 4 <= Up4(len + 1)
    ensures Up4(stop + 1) == len ==> Up4(len + 1) == len + 4
  {
  }

  // ---------- whole blocks ----------

  /** The callbacks for the tokens of a block at `p`. */
  function CallsFor(ts: seq<Token>, p: nat): seq<Call> {
    if ts == [] then []
    else (if ts[0].Prop? && ts[0].prop.value != [] then [Call(p + 12, |ts[0].prop.value|)] else [])
         + CallsFor(ts[1..], p + |Encode(ts[0])|)
  }

  function TokenValues(ts: seq<Token>): seq<seq<byte>> {
    if ts == [] then []
    else (if ts[0].Prop? && ts[0].prop.value != [] then [ts[0].prop.value] else []) + TokenValues(ts[1..])
  }

  /** Each callback points at the value it stands for. */
  ghost predicate PointsAt(blob: seq<byte>, calls: seq<Call>, values: seq<seq<byte>>) {
    && |calls| == |values|
    && forall i {:trigger calls[i]} :: 0 <= i < |calls| ==>
         calls[i].len == |values[i]| && Holds(blob, calls[i].at, values[i])
  }

  lemma BlockHead(blob: seq<byte>, base: nat, p: nat, hi: nat, ts: seq<Token>)
    requires ts != [] && TokensOk(ts) && !ts[|ts| - 1].Begin? && (base + p) % 4 == 0
    requires hi <= |blob| && p + |EncodeAll(ts)| == hi && Holds(blob, p, EncodeAll(ts))
    ensures StartsWith(blob, base, p, hi, ts[0])
    ensures var q := p + |Encode(ts[0])|;
            (base + q) % 4 == 0 && q + |EncodeAll(ts[1..])| == hi && Holds(blob, q, EncodeAll(ts[1..]))
                && TokensOk(ts[1..])
  {
    hide Encode, Holds;
    HoldsSplit(blob, p, Encode(ts[0]), EncodeAll(ts[1..]));
    EncodeAligned(ts[0]);
    if ts[0].Begin? {
      var rest := ts[1..];
      assert rest != [];
      HoldsSplit(blob, p + |Encode(ts[0])|, Encode(rest[0]), EncodeAll(rest[1..]));
      EncodeAligned(rest[0]);
      HoldsAt(blob, p + |Encode(ts[0])|, Encode(rest[0]), 0);
    }
    forall i | 0 <= i < |ts[1..]| ensures TokenOk(ts[1..][i]) {
      assert ts[1..][i] == ts[i + 1];
    }
  }

  lemma WalkEnd(blob: seq<byte>, base: nat, hi: nat)
    requires hi <= |blob|
    ensures Walk(blob, base, hi, hi) == ([], Completed(hi))
  {
  }

  /** The walk over an encoded block: with safe names it makes exactly the calls for its non-empty
      properties and stops at the end of the block; with an unsafe name it stops at an unknown token. */
  lemma {:induction false} WalkBlock(blob: seq<byte>, base: nat, p: nat, hi: nat, ts: seq<Token>)
    requires TokensOk(ts) && (ts != [] ==> !ts[|ts| - 1].Begin?) && (base + p) % 4 == 0
    requires hi <= |blob| && p + |EncodeAll(ts)| == hi && Holds(blob, p, EncodeAll(ts))
    ensures AllSafe(ts) ==> Walk(blob, base, p, hi) == (CallsFor(ts, p), Completed(hi))
    ensures !AllSafe(ts) ==> Walk(blob, base, p, hi).1.Unknown?
    decreases |ts|
  {
    hide Walk, Encode, Holds, StartsWith, TokensOk, AllSafe, Safe;
    if ts == [] {
      WalkEnd(blob, base, hi);
      NothingUnsafe();
    } else {
      var t, rest := ts[0], ts[1..];
      var q := p + |Encode(t)|;
      BlockHead(blob, base, p, hi, ts);
      WalkBlock(blob, base, q, hi, rest);
      SafeCons(ts);
      OneToken(blob, base, p, hi, t);
      assert [] + CallsFor(rest, q) == CallsFor(rest, q);
    }
  }

  lemma NothingUnsafe()
    ensures AllSafe([])
  {
  }

  lemma {:induction false} CallsPoint(blob: seq<byte>, base: nat, p: nat, hi: nat, ts: seq<Token>)
    requires TokensOk(ts) && (ts != [] ==> !ts[|ts| - 1].Begin?) && (base + p) % 4 == 0
    requires hi <= |blob| && p + |EncodeAll(ts)| == hi && Holds(blob, p, EncodeAll(ts))
    ensures PointsAt(blob, CallsFor(ts, p), TokenValues(ts))
    decreases |ts|
  {
    hide Encode, Holds, StartsWith, TokensOk, Walk;
    if ts != [] {
      BlockHead(blob, base, p, hi, ts);
      CallsPoint(blob, base, p + |Encode(ts[0])|, hi, ts[1..]);
      if ts[0].Prop? {
        PropBytes(blob, base, p, hi, ts[0].prop);
      }
    }
  }

  lemma SafeCons(ts: seq<Token>)
    requires ts != []
    ensures AllSafe(ts) <==> Safe(ts[0]) && AllSafe(ts[1..])
  {
    assert ts == [ts[0]] + ts[1..];
    if Safe(ts[0]) && AllSafe(ts[1..]) {
      forall i | 0 <= i < |ts| ensures Safe(ts[i]) {
        assert i > 0 ==> ts[i] == ts[1..][i - 1];
      }
    } else if AllSafe(ts) {
      forall i | 0 <= i < |ts[1..]| ensures Safe(ts[1..][i]) {
        assert ts[1..][i] == ts[i + 1];
      }
    }
  }

  lemma OneToken(blob: seq<byte>, base: nat, p: nat, hi: nat, t: Token)
    requires StartsWith(blob, base, p, hi, t)
    ensures var rest := Walk(blob, base, p + |Encode(t)|, hi);
            && (!Safe(t) ==> Walk(blob, base, p, hi).1.Unknown?)
            && (Safe(t) && t.Prop? && t.prop.value != [] ==>
                 Walk(blob, base, p, hi) == Then(Call(p + 12, |t.prop.value|), rest))
            && (Safe(t) && !(t.Prop? && t.prop.value != []) ==> Walk(blob, base, p, hi) == rest)
  {
    hide Walk, Encode, Holds, StartsWith, Stop, Up4;
    match t
    case Begin(name) =>
      NodeBytes(blob, base, p, hi, name);
      WalkName(blob, base, p, hi, name);
      if !SafeName(name) {
        UnsafeNameStops(blob, base, p, hi, name);
      }
    case Prop(prop) =>
      WalkProp(blob, base, p, hi, prop);
    case _ => WalkPlain(blob, base, p, hi, t);
  }

  // ---------- document order ----------

  lemma {:induction false} TokenValuesAppend(a: seq<Token>, b: seq<Token>)
    ensures TokenValues(a + b) == TokenValues(a) + TokenValues(b)
  {
    if a == [] {
      assert a + b == b;
    } else {
      assert (a + b)[1..] == a[1..] + b;
      TokenValuesAppend(a[1..], b);
    }
  }

  lemma {:induction false} PropTokensValues(ps: seq<Property>)
    ensures TokenValues(PropTokens(ps)) == ValuesOf(ps)
  {
    if ps != [] {
      PropTokensValues(ps[1..]);
      assert PropTokens(ps)[1..] == PropTokens(ps[1..]);
    }
  }

  lemma {:induction false} NodeTokensValues(n: Node)
    ensures TokenValues(NodeTokens(n)) == TreeValues(n)
    decreases n
  {
    PropTokensValues(n.props);
    ForestTokensValues(n.children);
    var body := [Begin(n.name)] + PropTokens(n.props);
    TokenValuesAppend(body + ForestTokens(n.children), [EndNode]);
    TokenValuesAppend(body, ForestTokens(n.children));
    TokenValuesAppend([Begin(n.name)], PropTokens(n.props));
    assert TokenValues([EndNode]) == [] && TokenValues([Begin(n.name)]) == [];
  }

  lemma {:induction false} ForestTokensValues(ns: seq<Node>)
    ensures TokenValues(ForestTokens(ns)) == ForestValues(ns)
    decreases ns
  {
    if ns != [] {
      NodeTokensValues(ns[0]);
      ForestTokensValues(ns[1..]);
      TokenValuesAppend(NodeTokens(ns[0]), ForestTokens(ns[1..]));
    }
  }

  lemma {:induction false} NopsHaveNoValues(ts: seq<Token>)
    ensures TokenValues(WithoutNops(ts)) == TokenValues(ts)
  {
    if ts != [] {
      NopsHaveNoValues(ts[1..]);
      if !ts[0].Nop? {
        assert WithoutNops(ts)[1..] == WithoutNops(ts[1..]);
      }
    }
  }

  /** For every tree serialised with NOPs anywhere, at a 4-aligned address, the walk reads only inside
      the structure block. It calls back once for each non-empty property, in document order, with a
      pointer to the value and its length, and ends exactly at the end of the block, if and only if
      every name is safe. */
  lemma TraverseIsExact(blob: seq<byte>, base: nat, ts: seq<Token>, root: Node)
    requires |blob| >= 40 && ReadBe(blob, 0) == 0xd00d_feed && ReadBe(blob, 8) + ReadBe(blob, 36) <= |blob|
    requires StructureOf(ts, root) && TokensOk(ts) && (base + ReadBe(blob, 8)) % 4 == 0
    requires |EncodeAll(ts)| == ReadBe(blob, 36) && Holds(blob, ReadBe(blob, 8), EncodeAll(ts))
    ensures var r, hi := Traverse(blob, base), ReadBe(blob, 8) + ReadBe(blob, 36);
            && r.Walked? && r.end != Fault
            && (AllSafe(ts) <==> r.end == Completed(hi) && PointsAt(blob, r.calls, TreeValues(root)))
            && (!AllSafe(ts) <==> r.end.Unknown?)
  {
    hide ReadBe, Holds, Walk, EncodeAll, TokensOk, AllSafe, PointsAt, TreeValues, TokenValues, CallsFor, NodeTokens,
      WithoutNops;
    var lo := ReadBe(blob, 8);
    WalkBlock(blob, base, lo, lo + ReadBe(blob, 36), ts);
    CallsPoint(blob, base, lo, lo + ReadBe(blob, 36), ts);
    DocumentOrder(ts, root);
  }

  lemma DocumentOrder(ts: seq<Token>, root: Node)
    requires StructureOf(ts, root)
    ensures TokenValues(ts) == TreeValues(root)
  {
    NopsHaveNoValues(ts);
    NodeTokensValues(root);
    TokenValuesAppend(NodeTokens(root), [End]);
    assert TokenValues([End]) == [];
  }

  /** Names without newlines, which is all the specification allows, are safe. */
  lemma PlainNamesAreSafe(name: seq<byte>)
    requires forall i :: 0 <= i < |name| ==> name[i] != '\n' as int
    ensures SafeName(name)
  {
    assert Stop(name) == |name|;
  }

  /** A blob of one block: header, then the tokens. Only the fields that the walker reads matter. */
  function Blob(ts: seq<Token>): seq<byte> {
    Be32(MAGIC) + Zeros(4) + Be32(40) + Zeros(24) + Be32(|EncodeAll(ts)|) + EncodeAll(ts)
  }

  /** Every block of less than 4 GiB has a blob that the walker accepts. */
  lemma BlobHolds(ts: seq<Token>)
    requires |EncodeAll(ts)| < 0x1_0000_0000
    ensures var blob := Blob(ts);
            && |blob| == 40 + |EncodeAll(ts)| && ReadBe(blob, 0) == 0xd00d_feed && ReadBe(blob, 8) == 40
            && ReadBe(blob, 36) == |EncodeAll(ts)| && Holds(blob, 40, EncodeAll(ts))
  {
    hide Be32, ReadBe, EncodeAll, Zeros, Holds;
    var blob, n := Blob(ts), |EncodeAll(ts)|;
    var h1 := Be32(MAGIC) + Zeros(4) + Be32(40) + Zeros(24) + Be32(n);
    var h2 := Be32(MAGIC) + Zeros(4) + Be32(40) + Zeros(24);
    HoldsAll(blob);
    HoldsSplit(blob, 0, h1, EncodeAll(ts));
    HoldsSplit(blob, 0, h2, Be32(n));
    HoldsSplit(blob, 0, Be32(MAGIC) + Zeros(4) + Be32(40), Zeros(24));
    HoldsSplit(blob, 0, Be32(MAGIC) + Zeros(4), Be32(40));
    HoldsSplit(blob, 0, Be32(MAGIC), Zeros(4));
    ReadsBack(blob, 0, MAGIC);
    ReadsBack(blob, 8, 40);
    ReadsBack(blob, 36, n);
  }

  lemma HoldsAll(blob: seq<byte>)
    ensures Holds(blob, 0, blob)
  {
  }

  /** A tree of one node. */
  function OneNode(name: seq<byte>): seq<Token> {
    [Begin(name), EndNode, End]
  }

  lemma OneNodeIsTree(name: seq<byte>)
    requires TokenOk(Begin(name))
    ensures StructureOf(OneNode(name), Node(name, [], [])) && TokensOk(OneNode(name))
    ensures AllSafe(OneNode(name)) <==> SafeName(name)
  {
    hide Be32, Padded, SafeName;
    var ts := OneNode(name);
    assert ts[1..] == [EndNode, End] && [EndNode, End][1..] == [End] && [End][1..] == [];
    assert PropTokens([]) == [] && ForestTokens([]) == [];
    assert NodeTokens(Node(name, [], [])) == [Begin(name), EndNode];
    assert WithoutNops([End]) == [End];
    assert WithoutNops([EndNode, End]) == [EndNode, End];
    if SafeName(name) {
      assert Safe(ts[0]) && Safe(ts[1]) && Safe(ts[2]);
    } else {
      assert !Safe(ts[0]);
    }
  }

  lemma OneNodeSize(name: seq<byte>)
    ensures |EncodeAll(OneNode(name))| == Up4(|name| + 1) + 12
  {
    hide Be32, Up4, Zeros;
    var ts := OneNode(name);
    assert ts[1..] == [EndNode, End] && [EndNode, End][1..] == [End] && [End][1..] == [];
    assert |EncodeAll([End])| == 4;
    assert |EncodeAll([EndNode, End])| == 8;
    assert |Encode(Begin(name))| == 4 + Up4(|name| + 1);
  }

  /** On the blob of a tree of one node the walk ends at an unknown token exactly when the name is not
      safe, and otherwise at the end of the block. */
  lemma OneNodeWalk(name: seq<byte>, base: nat)
    requires |EncodeAll(OneNode(name))| < 0x1_0000_0000 && TokenOk(Begin(name)) && base % 4 == 0
    ensures var blob := Blob(OneNode(name));
            && |blob| >= 40 && ReadBe(blob, 8) + ReadBe(blob, 36) <= |blob|
            && Traverse(blob, base).Walked?
            && (Traverse(blob, base).end.Unknown? <==> !SafeName(name))
            && (Traverse(blob, base).end == Completed(|blob|) <==> SafeName(name))
  {
    hide Blob, EncodeAll, OneNode, ReadBe, Holds, SafeName, TokensOk, Traverse, StructureOf, AllSafe;
    OneNodeIsTree(name);
    BlobHolds(OneNode(name));
    TraverseIsExact(Blob(OneNode(name)), base, OneNode(name), Node(name, [], []));
  }

  /** A newline at the start of a longer name does stop the walk: on the blob of the tree whose one node
      has that name it ends at an unknown token. */
  lemma UnsafeNameExists()
    ensures var name := ['\n' as int, 97, 98, 99];
            !SafeName(name) && |Blob(OneNode(name))| >= 40
            && ReadBe(Blob(OneNode(name)), 8) + ReadBe(Blob(OneNode(name)), 36) <= |Blob(OneNode(name))|
            && Traverse(Blob(OneNode(name)), 0).Walked? && Traverse(Blob(OneNode(name)), 0).end.Unknown?
  {
    hide Blob, OneNode, ReadBe, Traverse;
    var name := ['\n' as int, 97, 98, 99];
    assert Stop(name) == 0;
    OneNodeSize(name);
    OneNodeWalk(name, 0);
  }
}
