/** Dalvik code units: the instruction formats, and the lines a disassembler prints of them. */
module Dalvik {
  import opened Wrappers

  /** The executable formats, named as in the Dalvik executable instruction formats document. */
  datatype Format =
      F10x | F12x | F11n | F11x | F10t | F20t | F22x | F21t | F21s | F21h | F21c | F23x | F22b | F22t | F22s | F22c
    | F30t | F32x | F31i | F31t | F31c | F35c | F3rc | F45cc | F4rcc | F51l

  function Size(f: Format): (n: nat)
    ensures 1 <= n <= 5
  {
    match f
    case F10x => 1
    case F12x => 1
    case F11n => 1
    case F11x => 1
    case F10t => 1
    case F30t => 3
    case F32x => 3
    case F31i => 3
    case F31t => 3
    case F31c => 3
    case F35c => 3
    case F3rc => 3
    case F45cc => 4
    case F4rcc => 4
    case F51l => 5
    case _ => 2
  }

  /** The units its operands are printed from: the last of a polymorphic call's is not looked at. */
  function Reads(f: Format): (n: nat)
    ensures 1 <= n <= Size(f)
  {
    if f == F45cc || f == F4rcc then 3 else Size(f)
  }

  /** The format of each opcode. */
  function FormatOf(op: nat): Format
    requires op < 256
  {
    if op == 0x00 || op == 0x0E || 0x3E <= op < 0x44 || op == 0x73 || op == 0x79 || op == 0x7A || 0xE3 <= op < 0xFA
      then F10x
    else if op in {0x01, 0x04, 0x07, 0x21} || 0x7B <= op < 0x90 || 0xB0 <= op < 0xD0 then F12x
    else if op in {0x02, 0x05, 0x08} then F22x
    else if op in {0x03, 0x06, 0x09} then F32x
    else if 0x0A <= op < 0x12 || op in {0x1D, 0x1E, 0x27} then F11x
    else if op == 0x12 then F11n
    else if op == 0x13 || op == 0x16 then F21s
    else if op == 0x14 || op == 0x17 then F31i
    else if op == 0x15 || op == 0x19 then F21h
    else if op == 0x18 then F51l
    else if op == 0x1B then F31c
    else if op in {0x1A, 0x1C, 0x1F, 0x22, 0xFE, 0xFF} || 0x60 <= op < 0x6E then F21c
    else if op == 0x20 || op == 0x23 || 0x52 <= op < 0x60 then F22c
    else if op == 0x24 || 0x6E <= op < 0x73 || op == 0xFC then F35c
    else if op == 0x25 || 0x74 <= op < 0x79 || op == 0xFD then F3rc
    else if op in {0x26, 0x2B, 0x2C} then F31t
    else if op == 0x28 then F10t
    else if op == 0x29 then F20t
    else if op == 0x2A then F30t
    else if 0x32 <= op < 0x38 then F22t
    else if 0x38 <= op < 0x3E then F21t
    else if 0xD0 <= op < 0xD8 then F22s
    else if 0xD8 <= op < 0xE3 then F22b
    else if op == 0xFA then F45cc
    else if op == 0xFB then F4rcc
    else F23x
  }

  datatype RefKind = AString | AType | AField | AMethod | AnIndex

  /** Which table an opcode's index is into. */
  function RefKindOf(op: nat): RefKind
  {
    if op == 0x1A || op == 0x1B then AString
    else if op in {0x1C, 0x1F, 0x20, 0x22, 0x23, 0x24, 0x25} then AType
    else if 0x52 <= op < 0x6E then AField
    else if 0x6E <= op < 0x73 || 0x74 <= op < 0x79 || 0xFA <= op < 0xFE then AMethod
    else AnIndex
  }

  /** One operand as printed. */
  datatype Part =
    | V(r: nat) | Lit(v: int) | High(n: nat) | To(target: int) | Payload(target: int)
    | Ref(kind: RefKind, index: nat) | Regs(rs: seq<nat>) | Range(first: nat, last: int)

  datatype Line = Line(offset: nat, op: nat, parts: seq<Part>)

  type Units = seq<nat>

  predicate AreUnits(s: Units)
  {
    forall i :: 0 <= i < |s| ==> s[i] < 0x10000
  }

  // ---------------------------------------------------------------- reading

  function Signed(v: nat, half: nat): int
  {
    if v >= half then v - 2 * half else v
  }

  function Wide(s: Units, i: nat): nat
    requires i + 2 <= |s|
  {
    s[i] + 0x10000 * s[i + 1]
  }

  /** The registers of a counted list: four in a word, the fifth in the first unit. */
  function Counted(w: nat, a: nat): seq<nat>
  {
    var rs := [w % 16, w / 16 % 16, w / 256 % 16, w / 4096, a % 16];
    if a / 16 <= 5 then rs[..a / 16] else rs
  }

  function Span(first: nat, count: nat): Part
  {
    var end: int := first + count;
    Range(first, end - 1)
  }

  /** The operands of an instruction at `at`, from its first unit's high byte `a` and the units after. */
  function OperandsOf(f: Format, op: nat, a: nat, u: Units, at: nat): seq<Part>
    requires |u| == Reads(f) - 1
  {
    match f
    case F10x => []
    case F12x => [V(a % 16), V(a / 16)]
    case F11n => [V(a % 16), Lit(Signed(a / 16, 8))]
    case F11x => [V(a)]
    case F10t => [To(at + Signed(a, 128))]
    case F20t => [To(at + Signed(u[0], 0x8000))]
    case F22x => [V(a), V(u[0])]
    case F21t => [V(a), To(at + Signed(u[0], 0x8000))]
    case F21s => [V(a), Lit(Signed(u[0], 0x8000))]
    case F21h => [V(a), High(u[0])]
    case F21c => [V(a), Ref(RefKindOf(op), u[0])]
    case F23x => [V(a), V(u[0] % 256), V(u[0] / 256)]
    case F22b => [V(a), V(u[0] % 256), Lit(Signed(u[0] / 256, 128))]
    case F22t => [V(a % 16), V(a / 16), To(at + Signed(u[0], 0x8000))]
    case F22s => [V(a % 16), V(a / 16), Lit(Signed(u[0], 0x8000))]
    case F22c => [V(a % 16), V(a / 16), Ref(RefKindOf(op), u[0])]
    case F30t => [To(at + Signed(Wide(u, 0), 0x8000_0000))]
    case F32x => [V(u[0]), V(u[1])]
    case F31i => [V(a), Lit(Signed(Wide(u, 0), 0x8000_0000))]
    case F31t => [V(a), Payload(at + Signed(Wide(u, 0), 0x8000_0000))]
    case F31c => [V(a), Ref(RefKindOf(op), Wide(u, 0))]
    case F35c => [Regs(Counted(u[1], a)), Ref(RefKindOf(op), u[0])]
    case F45cc => [Regs(Counted(u[1], a)), Ref(RefKindOf(op), u[0])]
    case F3rc => [Span(u[1], a), Ref(RefKindOf(op), u[0])]
    case F4rcc => [Span(u[1], a), Ref(RefKindOf(op), u[0])]
    case F51l => [V(a), Lit(Wide(u, 0) + 0x1_0000_0000 * Wide(u, 2))]
  }

  function Operands(u: Units, at: nat): seq<Part>
    requires |u| > 0 && |u| == Reads(FormatOf(u[0] % 256))
  {
    OperandsOf(FormatOf(u[0] % 256), u[0] % 256, u[0] / 256, u[1..], at)
  }

  /** The units a payload says it takes; None where its header is cut short. */
  function PayloadSize(s: Units, i: nat): (r: Option<nat>)
    requires i < |s| && s[i] in {0x100, 0x200, 0x300}
    ensures r.Some? ==> r.value >= 2
  {
    if s[i] == 0x100 then if i + 1 < |s| then Some(s[i + 1] * 2 + 4) else None
    else if s[i] == 0x200 then if i + 1 < |s| then Some(s[i + 1] * 4 + 2) else None
    else if i + 3 < |s| then Some((Wide(s, i + 2) * s[i + 1] + 1) / 2 + 4) else None
  }

  /** The lines from `i` on; None where an instruction or a payload header is cut short. */
  function Listing(s: Units, i: nat): Option<seq<Line>>
    requires AreUnits(s)
    decreases |s| - i
  {
    if i >= |s| then Some([])
    else if s[i] in {0x100, 0x200, 0x300} then
      var n :- PayloadSize(s, i);
      Listing(s, i + n)
    else
      var op := s[i] % 256;
      var n := Reads(FormatOf(op));
      if i + n > |s| then None
      else
        var rest :- Listing(s, i + Size(FormatOf(op)));
        Some([Line(i, op, Operands(s[i..i + n], i))] + rest)
  }

  method Disassemble(s: Units) returns (r: Option<seq<Line>>)
    requires AreUnits(s)
    ensures r == Listing(s, 0)
  {
    hide Operands, FormatOf, Size, Reads, PayloadSize;
    var out: seq<Line> := [];
    var i := 0;
    BeforeAll(Listing(s, 0));
    while i < |s|
      invariant Before(out, Listing(s, i)) == Listing(s, 0)
      decreases |s| - i
    {
      if s[i] in {0x100, 0x200, 0x300} {
        var n :- PayloadSize(s, i);
        i := i + n;
      } else {
        var op := s[i] % 256;
        var n := Reads(FormatOf(op));
        if i + n > |s| {
          return None;
        }
        var line := Line(i, op, Operands(s[i..i + n], i));
        BeforeOne(out, line, Listing(s, i + Size(FormatOf(op))));
        out := out + [line];
        i := i + Size(FormatOf(op));
      }
    }
    assert out + [] == out;
    return Some(out);
  }

  // ---------------------------------------------------------------- writing

  /** The operands of an instruction, by format: registers, literals, branch offsets, table indices. */
  datatype Fields =
      N10x
    | N12x(a: nat, b: nat)
    | N11n(a: nat, lit: int)
    | N11x(a: nat)
    | N10t(off: int)
    | N20t(off: int)
    | N22x(a: nat, b: nat)
    | N21t(a: nat, off: int)
    | N21s(a: nat, lit: int)
    | N21h(a: nat, high: nat)
    | N21c(a: nat, index: nat)
    | N23x(a: nat, b: nat, c: nat)
    | N22b(a: nat, b: nat, lit: int)
    | N22t(a: nat, b: nat, off: int)
    | N22s(a: nat, b: nat, lit: int)
    | N22c(a: nat, b: nat, index: nat)
    | N30t(off: int)
    | N32x(a: nat, b: nat)
    | N31i(a: nat, lit: int)
    | N31t(a: nat, off: int)
    | N31c(a: nat, index: nat)
    | N35c(rs: seq<nat>, index: nat)
    | N3rc(count: nat, first: nat, index: nat)
    | N45cc(rs: seq<nat>, index: nat, proto: nat)
    | N4rcc(count: nat, first: nat, index: nat, proto: nat)
    | N51l(a: nat, wide: nat)

  function FieldsFormat(f: Fields): Format
  {
    match f
    case N10x => F10x
    case N12x(_, _) => F12x
    case N11n(_, _) => F11n
    case N11x(_) => F11x
    case N10t(_) => F10t
    case N20t(_) => F20t
    case N22x(_, _) => F22x
    case N21t(_, _) => F21t
    case N21s(_, _) => F21s
    case N21h(_, _) => F21h
    case N21c(_, _) => F21c
    case N23x(_, _, _) => F23x
    case N22b(_, _, _) => F22b
    case N22t(_, _, _) => F22t
    case N22s(_, _, _) => F22s
    case N22c(_, _, _) => F22c
    case N30t(_) => F30t
    case N32x(_, _) => F32x
    case N31i(_, _) => F31i
    case N31t(_, _) => F31t
    case N31c(_, _) => F31c
    case N35c(_, _) => F35c
    case N3rc(_, _, _) => F3rc
    case N45cc(_, _, _) => F45cc
    case N4rcc(_, _, _, _) => F4rcc
    case N51l(_, _) => F51l
  }

  predicate S4(v: int) { -8 <= v < 8 }
  predicate S8(v: int) { -128 <= v < 128 }
  predicate S16(v: int) { -0x8000 <= v < 0x8000 }
  predicate S32(v: int) { -0x8000_0000 <= v < 0x8000_0000 }

  predicate Registers(rs: seq<nat>)
  {
    |rs| <= 5 && forall r :: r in rs ==> r < 16
  }

  /** Each field fits where its format puts it. */
  predicate Fits(f: Fields)
  {
    match f
    case N10x => true
    case N12x(a, b) => a < 16 && b < 16
    case N11n(a, v) => a < 16 && S4(v)
    case N11x(a) => a < 256
    case N10t(v) => S8(v)
    case N20t(v) => S16(v)
    case N22x(a, b) => a < 256 && b < 0x10000
    case N21t(a, v) => a < 256 && S16(v)
    case N21s(a, v) => a < 256 && S16(v)
    case N21h(a, h) => a < 256 && h < 0x10000
    case N21c(a, i) => a < 256 && i < 0x10000
    case N23x(a, b, c) => a < 256 && b < 256 && c < 256
    case N22b(a, b, v) => a < 256 && b < 256 && S8(v)
    case N22t(a, b, v) => a < 16 && b < 16 && S16(v)
    case N22s(a, b, v) => a < 16 && b < 16 && S16(v)
    case N22c(a, b, i) => a < 16 && b < 16 && i < 0x10000
    case N30t(v) => S32(v)
    case N32x(a, b) => a < 0x10000 && b < 0x10000
    case N31i(a, v) => a < 256 && S32(v)
    case N31t(a, v) => a < 256 && S32(v)
    case N31c(a, i) => a < 256 && i < 0x1_0000_0000
    case N35c(rs, i) => Registers(rs) && i < 0x10000
    case N3rc(n, c, i) => n < 256 && c < 0x10000 && i < 0x10000
    case N45cc(rs, i, p) => Registers(rs) && i < 0x10000 && p < 0x10000
    case N4rcc(n, c, i, p) => n < 256 && c < 0x10000 && i < 0x10000 && p < 0x10000
    case N51l(a, v) => a < 256 && v < 0x1_0000_0000_0000_0000
  }

  function Two(v: int): (u: Units)
    ensures |u| == 2
  {
    [v % 0x10000, v / 0x10000 % 0x10000]
  }

  function Reg(rs: seq<nat>, k: nat): nat
  {
    if k < |rs| then rs[k] else 0
  }

  function Four(rs: seq<nat>): nat
  {
    Reg(rs, 0) + 16 * Reg(rs, 1) + 256 * Reg(rs, 2) + 4096 * Reg(rs, 3)
  }

  /** The first unit's high byte. */
  function Lead(f: Fields): nat
    requires Fits(f)
  {
    match f
    case N10x => 0
    case N12x(a, b) => a + 16 * b
    case N11n(a, v) => a + 16 * (v % 16)
    case N10t(v) => v % 256
    case N20t(_) => 0
    case N22t(a, b, _) => a + 16 * b
    case N22s(a, b, _) => a + 16 * b
    case N22c(a, b, _) => a + 16 * b
    case N30t(_) => 0
    case N32x(_, _) => 0
    case N35c(rs, _) => 16 * |rs| + Reg(rs, 4)
    case N45cc(rs, _, _) => 16 * |rs| + Reg(rs, 4)
    case N3rc(n, _, _) => n
    case N4rcc(n, _, _, _) => n
    case _ => f.a
  }

  /** The units after the first. */
  function Tail(f: Fields): Units
    requires Fits(f)
  {
    match f
    case N20t(v) => [v % 0x10000]
    case N22x(_, b) => [b]
    case N21t(_, v) => [v % 0x10000]
    case N21s(_, v) => [v % 0x10000]
    case N21h(_, h) => [h]
    case N21c(_, i) => [i]
    case N23x(_, b, c) => [b + 256 * c]
    case N22b(_, b, v) => [b + 256 * (v % 256)]
    case N22t(_, _, v) => [v % 0x10000]
    case N22s(_, _, v) => [v % 0x10000]
    case N22c(_, _, i) => [i]
    case N30t(v) => Two(v)
    case N32x(a, b) => [a, b]
    case N31i(_, v) => Two(v)
    case N31t(_, v) => Two(v)
    case N31c(_, i) => Two(i)
    case N35c(rs, i) => [i, Four(rs)]
    case N3rc(_, c, i) => [i, c]
    case N45cc(rs, i, p) => [i, Four(rs), p]
    case N4rcc(_, c, i, p) => [i, c, p]
    case N51l(_, v) => Two(v) + Two(v / 0x1_0000_0000)
    case _ => []
  }

  /** The units after the first that are printed. */
  function Shown(f: Fields): Units
    requires Fits(f)
  {
    if (f.N45cc? || f.N4rcc?) && |Tail(f)| >= 2 then Tail(f)[..2] else Tail(f)
  }

  /** An instruction's units, as its format lays them out. */
  function Encode(op: nat, f: Fields): Units
    requires op < 256 && Fits(f)
  {
    [op + 256 * Lead(f)] + Tail(f)
  }

  /** What an instruction at `at` prints: branches as the offset they lead to. */
  function Printed(op: nat, f: Fields, at: nat): seq<Part>
  {
    match f
    case N10x => []
    case N12x(a, b) => [V(a), V(b)]
    case N11n(a, v) => [V(a), Lit(v)]
    case N11x(a) => [V(a)]
    case N10t(v) => [To(at + v)]
    case N20t(v) => [To(at + v)]
    case N22x(a, b) => [V(a), V(b)]
    case N21t(a, v) => [V(a), To(at + v)]
    case N21s(a, v) => [V(a), Lit(v)]
    case N21h(a, h) => [V(a), High(h)]
    case N21c(a, i) => [V(a), Ref(RefKindOf(op), i)]
    case N23x(a, b, c) => [V(a), V(b), V(c)]
    case N22b(a, b, v) => [V(a), V(b), Lit(v)]
    case N22t(a, b, v) => [V(a), V(b), To(at + v)]
    case N22s(a, b, v) => [V(a), V(b), Lit(v)]
    case N22c(a, b, i) => [V(a), V(b), Ref(RefKindOf(op), i)]
    case N30t(v) => [To(at + v)]
    case N32x(a, b) => [V(a), V(b)]
    case N31i(a, v) => [V(a), Lit(v)]
    case N31t(a, v) => [V(a), Payload(at + v)]
    case N31c(a, i) => [V(a), Ref(RefKindOf(op), i)]
    case N35c(rs, i) => [Regs(rs), Ref(RefKindOf(op), i)]
    case N3rc(n, c, i) => [Range(c, c + n - 1), Ref(RefKindOf(op), i)]
    case N45cc(rs, i, _) => [Regs(rs), Ref(RefKindOf(op), i)]
    case N4rcc(n, c, i, _) => [Range(c, c + n - 1), Ref(RefKindOf(op), i)]
    case N51l(a, v) => [V(a), Lit(v)]
  }

  lemma SignedBack(v: int, half: nat)
    requires half in {8, 128, 0x8000, 0x8000_0000}
    requires var h: int := half; -h <= v < h
    ensures Signed(v % (2 * half), half) == v
  {
    if half == 8 {
    } else if half == 128 {
    } else if half == 0x8000 {
    } else {
    }
  }

  lemma NibblesBack(x: nat, y: nat)
    requires x < 16 && y < 16
    ensures x + 16 * y < 256 && (x + 16 * y) % 16 == x && (x + 16 * y) / 16 == y
  {
  }

  lemma TwoBack(v: int)
    ensures var w := Two(v); AreUnits(w) && Wide(w, 0) == v % 0x1_0000_0000
  {
  }

  lemma FourBack(c: nat, d: nat, e: nat, f: nat)
    requires c < 16 && d < 16 && e < 16 && f < 16
    ensures var w := c + 16 * d + 256 * e + 4096 * f;
            w < 0x10000 && w % 16 == c && w / 16 % 16 == d && w / 256 % 16 == e && w / 4096 == f
  {
    var w := c + 16 * d + 256 * e + 4096 * f;
    assert w / 16 == d + 16 * e + 256 * f && w / 256 == e + 16 * f;
  }

  lemma CountedBack(rs: seq<nat>)
    requires Registers(rs)
    ensures Four(rs) < 0x10000 && 16 * |rs| + Reg(rs, 4) < 256 && Counted(Four(rs), 16 * |rs| + Reg(rs, 4)) == rs
  {
    assert forall k :: 0 <= k < |rs| ==> rs[k] in rs;
    assert forall k: nat :: Reg(rs, k) < 16;
    NibblesBack(Reg(rs, 4), |rs|);
    FourBack(Reg(rs, 0), Reg(rs, 1), Reg(rs, 2), Reg(rs, 3));
  }

  lemma LeadFits(f: Fields)
    requires Fits(f)
    ensures Lead(f) < 256
  {
    hide Registers, Four, Reg;
    match f
    case N35c(rs, _) => CountedBack(rs);
    case N45cc(rs, _, _) => CountedBack(rs);
    case _ =>
  }

  lemma CallTailFits(f: Fields)
    requires Fits(f) && (f.N35c? || f.N45cc?)
    ensures AreUnits(Tail(f)) && |Tail(f)| == Size(FieldsFormat(f)) - 1
  {
    hide Registers, Four, Reg;
    CountedBack(f.rs);
  }

  lemma TailFits(f: Fields)
    requires Fits(f)
    ensures AreUnits(Tail(f)) && |Tail(f)| == Size(FieldsFormat(f)) - 1
  {
    hide Registers, Four, Reg;
    if f.N35c? || f.N45cc? {
      CallTailFits(f);
    }
  }

  /** An instruction's operands are printed from what its format put in its units. */
  ghost predicate PartsBack(op: nat, f: Fields, at: nat)
    requires Fits(f)
  {
    |Shown(f)| == Reads(FieldsFormat(f)) - 1
    && OperandsOf(FieldsFormat(f), op, Lead(f), Shown(f), at) == Printed(op, f, at)
  }

  lemma ShortBack(op: nat, f: Fields, at: nat)
    requires Fits(f) && (f.N10x? || f.N11x?)
    ensures PartsBack(op, f, at)
  {
  }

  lemma NibblesOnlyBack(op: nat, f: Fields, at: nat)
    requires Fits(f) && f.N12x?
    ensures PartsBack(op, f, at)
  {
    NibblesBack(f.a, f.b);
  }

  lemma SignedShortBack(op: nat, f: Fields, at: nat)
    requires Fits(f) && (f.N11n? || f.N10t?)
    ensures PartsBack(op, f, at)
  {
    hide Signed;
    match f
    case N11n(a, v) => NibblesBack(a, v % 16); SignedBack(v, 8);
    case N10t(v) => SignedBack(v, 128);
  }

  lemma BytesBack(b: nat, c: nat)
    requires b < 256 && c < 256
    ensures (b + 256 * c) % 256 == b && (b + 256 * c) / 256 == c && b + 256 * c < 0x10000
  {
  }

  lemma PlainPairBack(op: nat, f: Fields, at: nat)
    requires Fits(f) && (f.N22x? || f.N21h? || f.N21c?)
    ensures PartsBack(op, f, at)
  {
  }

  lemma SplitPairBack(op: nat, f: Fields, at: nat)
    requires Fits(f) && f.N23x?
    ensures PartsBack(op, f, at)
  {
    BytesBack(f.b, f.c);
  }

  lemma NibbleIndexBack(op: nat, f: Fields, at: nat)
    requires Fits(f) && f.N22c?
    ensures PartsBack(op, f, at)
  {
    NibblesBack(f.a, f.b);
  }

  lemma SignedPairBack(op: nat, f: Fields, at: nat)
    requires Fits(f) && (f.N20t? || f.N21t?)
    ensures PartsBack(op, f, at)
  {
    hide Signed;
    SignedBack(f.off, 0x8000);
  }

  lemma LiteralPairBack(op: nat, f: Fields, at: nat)
    requires Fits(f) && f.N21s?
    ensures PartsBack(op, f, at)
  {
    hide Signed;
    SignedBack(f.lit, 0x8000);
  }

  lemma ByteLiteralBack(op: nat, f: Fields, at: nat)
    requires Fits(f) && f.N22b?
    ensures PartsBack(op, f, at)
  {
    hide Signed;
    BytesBack(f.b, f.lit % 256);
    SignedBack(f.lit, 128);
  }

  lemma NibblePairBack(op: nat, f: Fields, at: nat)
    requires Fits(f) && f.N22s?
    ensures PartsBack(op, f, at)
  {
    hide Signed;
    NibblesBack(f.a, f.b);
    SignedBack(f.lit, 0x8000);
  }

  lemma NibbleBranchBack(op: nat, f: Fields, at: nat)
    requires Fits(f) && f.N22t?
    ensures PartsBack(op, f, at)
  {
    hide Signed;
    NibblesBack(f.a, f.b);
    SignedBack(f.off, 0x8000);
  }

  lemma PayloadBack(op: nat, f: Fields, at: nat)
    requires Fits(f) && f.N31t?
    ensures PartsBack(op, f, at)
  {
    hide Signed, Two, Wide;
    TwoBack(f.off);
    SignedBack(f.off, 0x8000_0000);
  }

  lemma LongBranchBack(op: nat, f: Fields, at: nat)
    requires Fits(f) && f.N30t?
    ensures PartsBack(op, f, at)
  {
    hide Signed, Two, Wide;
    TwoBack(f.off);
    SignedBack(f.off, 0x8000_0000);
  }

  lemma LongBack(op: nat, f: Fields, at: nat)
    requires Fits(f) && f.N31c?
    ensures PartsBack(op, f, at)
  {
    hide Two, Wide;
    TwoBack(f.index);
  }

  lemma FarPairBack(op: nat, f: Fields, at: nat)
    requires Fits(f) && f.N32x?
    ensures PartsBack(op, f, at)
  {
  }

  lemma LongLiteralBack(op: nat, f: Fields, at: nat)
    requires Fits(f) && f.N31i?
    ensures PartsBack(op, f, at)
  {
    hide Signed, Two, Wide;
    TwoBack(f.lit);
    SignedBack(f.lit, 0x8000_0000);
  }

  lemma LongestBack(op: nat, f: Fields, at: nat)
    requires Fits(f) && f.N51l?
    ensures PartsBack(op, f, at)
  {
    TwoBack(f.wide);
    TwoBack(f.wide / 0x1_0000_0000);
  }

  lemma CallBack(op: nat, f: Fields, at: nat)
    requires Fits(f) && (f.N35c? || f.N45cc?)
    ensures PartsBack(op, f, at)
  {
    hide Registers, Four, Reg, Counted;
    CountedBack(f.rs);
  }

  lemma RangeBack(op: nat, f: Fields, at: nat)
    requires Fits(f) && (f.N3rc? || f.N4rcc?)
    ensures PartsBack(op, f, at)
  {
  }

  /** Every instruction of every format is its size, keeps its opcode, and prints its own operands. */
  lemma InstructionDecodes(op: nat, f: Fields, at: nat)
    requires op < 256 && Fits(f) && FormatOf(op) == FieldsFormat(f)
    ensures var u := Encode(op, f);
            && AreUnits(u) && |u| == Size(FormatOf(op)) && u[0] % 256 == op && u[0] / 256 == Lead(f)
            && Operands(u[..Reads(FormatOf(op))], at) == Printed(op, f, at)
  {
    hide FormatOf, Fits, Lead, Tail, OperandsOf, Printed;
    LeadFits(f);
    TailFits(f);
    match f {
      case N11n(_, _) => SignedShortBack(op, f, at);
      case N10t(_) => SignedShortBack(op, f, at);
      case N22x(_, _) => PlainPairBack(op, f, at);
      case N21h(_, _) => PlainPairBack(op, f, at);
      case N21c(_, _) => PlainPairBack(op, f, at);
      case N23x(_, _, _) => SplitPairBack(op, f, at);
      case N22c(_, _, _) => NibbleIndexBack(op, f, at);
      case N20t(_) => SignedPairBack(op, f, at);
      case N21t(_, _) => SignedPairBack(op, f, at);
      case N21s(_, _) => LiteralPairBack(op, f, at);
      case N22b(_, _, _) => ByteLiteralBack(op, f, at);
      case N22t(_, _, _) => NibbleBranchBack(op, f, at);
      case N22s(_, _, _) => NibblePairBack(op, f, at);
      case N35c(_, _) => CallBack(op, f, at);
      case N3rc(_, _, _) => RangeBack(op, f, at);
      case N45cc(_, _, _) => CallBack(op, f, at);
      case N4rcc(_, _, _, _) => RangeBack(op, f, at);
      case N51l(_, _) => LongestBack(op, f, at);
      case N30t(_) => LongBranchBack(op, f, at);
      case N31i(_, _) => LongLiteralBack(op, f, at);
      case N31t(_, _) => PayloadBack(op, f, at);
      case N31c(_, _) => LongBack(op, f, at);
      case N32x(_, _) => FarPairBack(op, f, at);
      case N12x(_, _) => NibblesOnlyBack(op, f, at);
      case _ => ShortBack(op, f, at);
    }
    ShownInUnits(op, f);
  }

  lemma ShownInUnits(op: nat, f: Fields)
    requires op < 256 && Fits(f) && |Tail(f)| == Size(FieldsFormat(f)) - 1
    ensures Encode(op, f)[..Reads(FieldsFormat(f))][1..] == Shown(f)
  {
    hide Fits, Lead, Tail;
    var n := Reads(FieldsFormat(f));
    assert Encode(op, f)[..n] == [op + 256 * Lead(f)] + Tail(f)[..n - 1];
    assert Tail(f)[..|Tail(f)|] == Tail(f);
  }

  // ---------------------------------------------------------------- a method's code

  /** What a method's code is made of: instructions, switch tables and array data. */
  datatype Item =
      Instruction(op: nat, f: Fields)
    | Packed(size: nat, body: Units)
    | Sparse(size: nat, body: Units)
    | Filled(width: nat, count: nat, body: Units)

  predicate Legal(x: Item)
  {
    match x
    case Instruction(op, f) => op < 256 && Fits(f) && FormatOf(op) == FieldsFormat(f)
    case Packed(n, body) => n < 0x10000 && AreUnits(body) && |body| == 2 + 2 * n
    case Sparse(n, body) => n < 0x10000 && AreUnits(body) && |body| == 4 * n
    case Filled(w, n, body) => w < 0x10000 && n < 0x1_0000_0000 && AreUnits(body) && |body| == (n * w + 1) / 2
  }

  predicate AllLegal(xs: seq<Item>)
  {
    forall i :: 0 <= i < |xs| ==> Legal(xs[i])
  }

  function UnitsOf(x: Item): Units
    requires Legal(x)
  {
    match x
    case Instruction(op, f) => Encode(op, f)
    case Packed(n, body) => [0x100, n] + body
    case Sparse(n, body) => [0x200, n] + body
    case Filled(w, n, body) => [0x300, w, n % 0x10000, n / 0x10000] + body
  }

  function Code(xs: seq<Item>): Units
    requires AllLegal(xs)
  {
    if xs == [] then [] else UnitsOf(xs[0]) + Code(xs[1..])
  }

  /** Where the k-th item starts. */
  function Position(xs: seq<Item>, k: nat): nat
    requires AllLegal(xs) && k <= |xs|
  {
    |Code(xs[..k])|
  }

  /** One line for each instruction, at the offset its units start at; none for a table. */
  function Lines(xs: seq<Item>, at: nat): seq<Line>
    requires AllLegal(xs)
  {
    if xs == [] then []
    else
      var rest := Lines(xs[1..], at + |UnitsOf(xs[0])|);
      match xs[0]
      case Instruction(op, f) => [Line(at, op, Printed(op, f, at))] + rest
      case _ => rest
  }

  /** Only a nop's opcode is 0, and its high byte is 0. */
  lemma OpcodeZero(f: Fields)
    requires Fits(f) && FormatOf(0) == FieldsFormat(f)
    ensures Lead(f) == 0
  {
    assert f.N10x?;
  }

  lemma InstructionUnits(op: nat, f: Fields)
    requires op < 256 && Fits(f) && FormatOf(op) == FieldsFormat(f)
    ensures AreUnits(Encode(op, f)) && Encode(op, f) != [] && Encode(op, f)[0] !in {0x100, 0x200, 0x300}
  {
    hide FormatOf, OperandsOf, Operands, Printed, Fits, Encode, Lead, FieldsFormat;
    InstructionDecodes(op, f, 0);
    if op == 0 {
      OpcodeZero(f);
    }
  }

  lemma ItemUnits(x: Item)
    requires Legal(x)
    ensures AreUnits(UnitsOf(x)) && UnitsOf(x) != []
    ensures x.Instruction? <==> UnitsOf(x)[0] !in {0x100, 0x200, 0x300}
  {
    hide FormatOf, Fits, Encode, FieldsFormat;
    match x
    case Instruction(op, f) => InstructionUnits(op, f);
    case _ =>
  }

  lemma {:induction false} CodeUnits(xs: seq<Item>)
    requires AllLegal(xs)
    ensures AreUnits(Code(xs))
  {
    hide UnitsOf, Legal;
    if xs != [] {
      assert Legal(xs[0]);
      ItemUnits(xs[0]);
      CodeUnits(xs[1..]);
    }
  }

  /** A table's header gives its own size. */
  lemma TableSkipped(s: Units, i: nat, x: Item)
    requires Legal(x) && !x.Instruction? && i + |UnitsOf(x)| <= |s| && s[i..i + |UnitsOf(x)|] == UnitsOf(x)
    ensures s[i] in {0x100, 0x200, 0x300} && PayloadSize(s, i) == Some(|UnitsOf(x)|)
  {
    var u := UnitsOf(x);
    assert s[i] == u[0] && s[i + 1] == u[1];
    if x.Filled? {
      assert s[i + 2] == u[2] && s[i + 3] == u[3];
      assert Wide(s, i + 2) == x.count;
    }
  }

  lemma InstructionListed(s: Units, i: nat, x: Item)
    requires Legal(x) && x.Instruction? && i + |UnitsOf(x)| <= |s| && s[i..i + |UnitsOf(x)|] == UnitsOf(x)
    ensures s[i] !in {0x100, 0x200, 0x300} && s[i] % 256 == x.op && Size(FormatOf(x.op)) == |UnitsOf(x)|
    ensures Operands(s[i..i + Reads(FormatOf(x.op))], i) == Printed(x.op, x.f, i)
  {
    InstructionDecodes(x.op, x.f, i);
    ItemUnits(x);
    hide FormatOf, Operands, Printed, Fits, Encode, Legal, Size;
    var u, n := Encode(x.op, x.f), Reads(FormatOf(x.op));
    assert s[i..i + |u|][..n] == s[i..i + n];
  }

  /** One item is printed, or skipped, and the listing goes on right after it. */
  lemma ListingStep(s: Units, i: nat, x: Item, rest: seq<Line>)
    requires AreUnits(s) && Legal(x) && i + |UnitsOf(x)| <= |s| && s[i..i + |UnitsOf(x)|] == UnitsOf(x)
    requires Listing(s, i + |UnitsOf(x)|) == Some(rest)
    ensures Listing(s, i) ==
            Some(match x case Instruction(op, f) => [Line(i, op, Printed(op, f, i))] + rest case _ => rest)
  {
    hide UnitsOf, Legal, Operands, Printed, FormatOf, PayloadSize, Size, Reads;
    ItemUnits(x);
    if x.Instruction? {
      InstructionListed(s, i, x);
    } else {
      TableSkipped(s, i, x);
    }
  }

  lemma {:induction false} ListingOf(s: Units, i: nat, xs: seq<Item>)
    requires AreUnits(s) && AllLegal(xs) && i <= |s| && s[i..] == Code(xs)
    ensures Listing(s, i) == Some(Lines(xs, i))
    decreases |xs|
  {
    hide UnitsOf, Legal, Operands, Printed, FormatOf, PayloadSize, Size, Reads;
    if xs != [] {
      var x, n := xs[0], |UnitsOf(xs[0])|;
      assert Legal(x);
      assert s[i..i + n] == s[i..][..n] == UnitsOf(x);
      assert s[i + n..] == s[i..][n..] == Code(xs[1..]);
      ListingOf(s, i + n, xs[1..]);
      ListingStep(s, i, x, Lines(xs[1..], i + n));
    }
  }

  /**
   * The disassembler never loses its place: every instruction is printed once, at its own offset, and
   * every table is skipped.
   */
  lemma NeverLosesSync(xs: seq<Item>)
    requires AllLegal(xs)
    ensures AreUnits(Code(xs)) && Listing(Code(xs), 0) == Some(Lines(xs, 0))
  {
    CodeUnits(xs);
    assert Code(xs)[0..] == Code(xs);
    ListingOf(Code(xs), 0, xs);
  }

  lemma {:induction false} LineAt(xs: seq<Item>, at: nat, j: nat)
    requires AllLegal(xs) && j < |xs| && xs[j].Instruction?
    ensures Line(at + Position(xs, j), xs[j].op, Printed(xs[j].op, xs[j].f, at + Position(xs, j))) in Lines(xs, at)
  {
    hide UnitsOf, Legal, Printed;
    assert Legal(xs[0]);
    if j > 0 {
      LineAt(xs[1..], at + |UnitsOf(xs[0])|, j - 1);
      assert xs[..j][0] == xs[0] && xs[..j][1..] == xs[1..][..j - 1];
      assert Position(xs, j) == |UnitsOf(xs[0])| + Position(xs[1..], j - 1);
    }
  }

  /** How far a branch goes, for the formats that branch. */
  function BranchOffset(f: Fields): Option<int>
  {
    match f
    case N10t(v) => Some(v)
    case N20t(v) => Some(v)
    case N21t(_, v) => Some(v)
    case N22t(_, _, v) => Some(v)
    case N30t(v) => Some(v)
    case _ => None
  }

  lemma BranchPart(op: nat, f: Fields, at: nat, to: nat)
    requires var p: int := at; BranchOffset(f) == Some(to - p)
    ensures To(to) in Printed(op, f, at)
  {
    var ps := Printed(op, f, at);
    assert ps[|ps| - 1] == To(to);
  }

  /** A branch from one item to another is printed at its own offset, with the offset of the item it leads to. */
  lemma BranchPrintsLabel(xs: seq<Item>, j: nat, k: nat)
    requires AllLegal(xs) && j < |xs| && k <= |xs| && xs[j].Instruction?
    requires var p: int := Position(xs, j); BranchOffset(xs[j].f) == Some(Position(xs, k) - p)
    ensures AreUnits(Code(xs)) && Listing(Code(xs), 0).Some?
    ensures exists line :: line in Listing(Code(xs), 0).value && line.offset == Position(xs, j) && line.op == xs[j].op
                           && To(Position(xs, k)) in line.parts
  {
    hide Position, Listing, Code, Lines, Printed, BranchOffset, Legal;
    NeverLosesSync(xs);
    LineAt(xs, 0, j);
    BranchPart(xs[j].op, xs[j].f, Position(xs, j), Position(xs, k));
  }

  /** Of any code units at all: the lines come at rising offsets inside the code. */
  lemma {:induction false} OffsetsRise(s: Units, i: nat)
    requires AreUnits(s) && Listing(s, i).Some?
    ensures var r := Listing(s, i).value;
            && (forall k :: 0 <= k < |r| ==> i <= r[k].offset < |s|)
            && (forall j, k :: 0 <= j < k < |r| ==> r[j].offset < r[k].offset)
    decreases |s| - i
  {
    hide Operands, FormatOf, PayloadSize;
    if i < |s| {
      if s[i] in {0x100, 0x200, 0x300} {
        OffsetsRise(s, i + PayloadSize(s, i).value);
      } else {
        OffsetsRise(s, i + Size(FormatOf(s[i] % 256)));
      }
    }
  }
}
