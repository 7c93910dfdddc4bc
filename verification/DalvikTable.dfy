/** The Dalvik opcode map, row by row, and what a method cut short disassembles to. */
module DalvikTable {
  import opened Wrappers
  import opened Dalvik

  /** The formats of the sixteen opcodes whose high digit this is. */
  function Row(high: nat): (row: seq<Format>)
    ensures |row| == 16
  {
    match high
    case 0x0 => [F10x, F12x, F22x, F32x, F12x, F22x, F32x, F12x, F22x, F32x, F11x, F11x, F11x, F11x, F10x, F11x]
    case 0x1 => [F11x, F11x, F11n, F21s, F31i, F21h, F21s, F31i, F51l, F21h, F21c, F31c, F21c, F11x, F11x, F21c]
    case 0x2 => [F22c, F12x, F21c, F22c, F35c, F3rc, F31t, F11x, F10t, F20t, F30t, F31t, F31t, F23x, F23x, F23x]
    case 0x3 => [F23x, F23x, F22t, F22t, F22t, F22t, F22t, F22t, F21t, F21t, F21t, F21t, F21t, F21t, F10x, F10x]
    case 0x4 => [F10x, F10x, F10x, F10x, F23x, F23x, F23x, F23x, F23x, F23x, F23x, F23x, F23x, F23x, F23x, F23x]
    case 0x5 => [F23x, F23x, F22c, F22c, F22c, F22c, F22c, F22c, F22c, F22c, F22c, F22c, F22c, F22c, F22c, F22c]
    case 0x6 => [F21c, F21c, F21c, F21c, F21c, F21c, F21c, F21c, F21c, F21c, F21c, F21c, F21c, F21c, F35c, F35c]
    case 0x7 => [F35c, F35c, F35c, F10x, F3rc, F3rc, F3rc, F3rc, F3rc, F10x, F10x, F12x, F12x, F12x, F12x, F12x]
    case 0x8 => [F12x, F12x, F12x, F12x, F12x, F12x, F12x, F12x, F12x, F12x, F12x, F12x, F12x, F12x, F12x, F12x]
    case 0x9 => [F23x, F23x, F23x, F23x, F23x, F23x, F23x, F23x, F23x, F23x, F23x, F23x, F23x, F23x, F23x, F23x]
    case 0xA => [F23x, F23x, F23x, F23x, F23x, F23x, F23x, F23x, F23x, F23x, F23x, F23x, F23x, F23x, F23x, F23x]
    case 0xB => [F12x, F12x, F12x, F12x, F12x, F12x, F12x, F12x, F12x, F12x, F12x, F12x, F12x, F12x, F12x, F12x]
    case 0xC => [F12x, F12x, F12x, F12x, F12x, F12x, F12x, F12x, F12x, F12x, F12x, F12x, F12x, F12x, F12x, F12x]
    case 0xD => [F22s, F22s, F22s, F22s, F22s, F22s, F22s, F22s, F22b, F22b, F22b, F22b, F22b, F22b, F22b, F22b]
    case 0xE => [F22b, F22b, F22b, F10x, F10x, F10x, F10x, F10x, F10x, F10x, F10x, F10x, F10x, F10x, F10x, F10x]
    case _ => [F10x, F10x, F10x, F10x, F10x, F10x, F10x, F10x, F10x, F10x, F45cc, F4rcc, F35c, F3rc, F21c, F21c]
  }

  lemma MoveRow(low: nat)
    requires low < 8
    ensures FormatOf(low) == Row(0)[low]
  {
  }

  lemma MoveRowEnd(low: nat)
    requires 8 <= low < 16
    ensures FormatOf(low) == Row(0)[low]
  {
  }

  lemma ConstantRow(low: nat)
    requires low < 8
    ensures FormatOf(0x10 + low) == Row(1)[low]
  {
  }

  lemma ConstantRowEnd(low: nat)
    requires 8 <= low < 16
    ensures FormatOf(0x10 + low) == Row(1)[low]
  {
  }

  lemma ObjectRow(low: nat)
    requires low < 8
    ensures FormatOf(0x20 + low) == Row(2)[low]
  {
  }

  lemma ObjectRowEnd(low: nat)
    requires 8 <= low < 16
    ensures FormatOf(0x20 + low) == Row(2)[low]
  {
  }

  lemma TestRow(low: nat)
    requires low < 8
    ensures FormatOf(0x30 + low) == Row(3)[low]
  {
  }

  lemma TestRowEnd(low: nat)
    requires 8 <= low < 16
    ensures FormatOf(0x30 + low) == Row(3)[low]
  {
  }

  lemma ArrayRow(low: nat)
    requires low < 8
    ensures FormatOf(0x40 + low) == Row(4)[low]
  {
  }

  lemma ArrayRowEnd(low: nat)
    requires 8 <= low < 16
    ensures FormatOf(0x40 + low) == Row(4)[low]
  {
  }

  lemma InstanceRow(low: nat)
    requires low < 8
    ensures FormatOf(0x50 + low) == Row(5)[low]
  {
  }

  lemma InstanceRowEnd(low: nat)
    requires 8 <= low < 16
    ensures FormatOf(0x50 + low) == Row(5)[low]
  {
  }

  lemma StaticRow(low: nat)
    requires low < 8
    ensures FormatOf(0x60 + low) == Row(6)[low]
  {
  }

  lemma StaticRowEnd(low: nat)
    requires 8 <= low < 16
    ensures FormatOf(0x60 + low) == Row(6)[low]
  {
  }

  lemma CallRow(low: nat)
    requires low < 8
    ensures FormatOf(0x70 + low) == Row(7)[low]
  {
  }

  lemma CallRowEnd(low: nat)
    requires 8 <= low < 16
    ensures FormatOf(0x70 + low) == Row(7)[low]
  {
  }

  lemma ConversionRow(low: nat)
    requires low < 16
    ensures FormatOf(0x80 + low) == Row(8)[low]
  {
  }

  lemma IntegerRow(low: nat)
    requires low < 16
    ensures FormatOf(0x90 + low) == Row(9)[low]
  {
  }

  lemma FloatRow(low: nat)
    requires low < 16
    ensures FormatOf(0xA0 + low) == Row(10)[low]
  {
  }

  lemma IntegerToRow(low: nat)
    requires low < 16
    ensures FormatOf(0xB0 + low) == Row(11)[low]
  {
  }

  lemma FloatToRow(low: nat)
    requires low < 16
    ensures FormatOf(0xC0 + low) == Row(12)[low]
  {
  }

  lemma LiteralRow(low: nat)
    requires low < 16
    ensures FormatOf(0xD0 + low) == Row(13)[low]
  {
  }

  lemma ShiftRow(low: nat)
    requires low < 16
    ensures FormatOf(0xE0 + low) == Row(14)[low]
  {
  }

  lemma LastRow(low: nat)
    requires low < 16
    ensures FormatOf(0xF0 + low) == Row(15)[low]
  {
  }

  /** Every opcode has the format the map gives it. */
  lemma FormatsExactly(op: nat)
    requires op < 256
    ensures FormatOf(op) == Row(op / 16)[op % 16]
  {
    hide FormatOf, Row;
    var high, low := op / 16, op % 16;
    match high
    case 0x0 => if low < 8 { MoveRow(low); } else { MoveRowEnd(low); }
    case 0x1 => if low < 8 { ConstantRow(low); } else { ConstantRowEnd(low); }
    case 0x2 => if low < 8 { ObjectRow(low); } else { ObjectRowEnd(low); }
    case 0x3 => if low < 8 { TestRow(low); } else { TestRowEnd(low); }
    case 0x4 => if low < 8 { ArrayRow(low); } else { ArrayRowEnd(low); }
    case 0x5 => if low < 8 { InstanceRow(low); } else { InstanceRowEnd(low); }
    case 0x6 => if low < 8 { StaticRow(low); } else { StaticRowEnd(low); }
    case 0x7 => if low < 8 { CallRow(low); } else { CallRowEnd(low); }
    case 0x8 => ConversionRow(low);
    case 0x9 => IntegerRow(low);
    case 0xA => FloatRow(low);
    case 0xB => IntegerToRow(low);
    case 0xC => FloatToRow(low);
    case 0xD => LiteralRow(low);
    case 0xE => ShiftRow(low);
    case _ => LastRow(low);
  }

  /** Two opcodes name strings, seven types, twenty-eight fields and fourteen methods; any other index is a number. */
  lemma KindsExactly(op: nat)
    requires op < 256
    ensures RefKindOf(op) == AString <==> op in {0x1A, 0x1B}
    ensures RefKindOf(op) == AType <==> op in {0x1C, 0x1F, 0x20, 0x22, 0x23, 0x24, 0x25}
    ensures RefKindOf(op) == AField <==> 0x52 <= op <= 0x6D
    ensures RefKindOf(op) == AMethod <==> 0x6E <= op <= 0x72 || 0x74 <= op <= 0x78 || 0xFA <= op <= 0xFD
  {
  }

  /**
   * Code that ends inside an instruction is refused, but for the last unit of a polymorphic call, which is
   * not looked at.
   */
  lemma CutShort(op: nat, f: Fields, k: nat)
    requires op < 256 && Fits(f) && FormatOf(op) == FieldsFormat(f) && 0 < k <= |Encode(op, f)|
    ensures AreUnits(Encode(op, f)[..k])
    ensures Listing(Encode(op, f)[..k], 0) ==
            if k == |Encode(op, f)| || (k == 3 && (f.N45cc? || f.N4rcc?)) then Some([Line(0, op, Printed(op, f, 0))])
            else None
  {
    InstructionUnits(op, f);
    InstructionDecodes(op, f, 0);
    hide Fits, Encode, FormatOf, FieldsFormat, Operands, Printed, AreUnits, Size;
    var u, n := Encode(op, f), Reads(FormatOf(op));
    CutUnits(u, k);
    Sizes(f);
    if k >= n {
      assert u[..k][..n] == u[..n];
    }
    ListsOne(u[..k]);
  }

  /** Code no longer than its first instruction. */
  lemma ListsOne(s: Units)
    requires AreUnits(s) && s != [] && s[0] !in {0x100, 0x200, 0x300} && |s| <= Size(FormatOf(s[0] % 256))
    ensures var op := s[0] % 256;
            var n := Reads(FormatOf(op));
            Listing(s, 0) == if |s| < n then None else Some([Line(0, op, Operands(s[..n], 0))])
  {
    hide FormatOf, Operands, AreUnits, Size, Reads;
    var op := s[0] % 256;
    assert Listing(s, Size(FormatOf(op))) == Some([]);
    if Reads(FormatOf(op)) <= |s| {
      var line := Line(0, op, Operands(s[0..Reads(FormatOf(op))], 0));
      assert [line] + [] == [line];
    }
  }

  lemma CutUnits(u: Units, k: nat)
    requires AreUnits(u) && 0 < k <= |u|
    ensures AreUnits(u[..k]) && u[..k][0] == u[0]
  {
  }

  lemma Sizes(f: Fields)
    ensures var n := Size(FieldsFormat(f));
            Reads(FieldsFormat(f)) == if f.N45cc? || f.N4rcc? then 3 else n
    ensures f.N45cc? || f.N4rcc? ==> Size(FieldsFormat(f)) == 4
  {
  }

  /** What fits each format of one unit: registers of four or eight bits, signed literals and offsets of 4 or 8. */
  lemma ShortFieldsExactly(a: nat, b: nat, v: int)
    ensures Fits(N12x(a, b)) <==> a <= 15 && b <= 15
    ensures Fits(N11n(a, v)) <==> a <= 15 && -8 <= v <= 7
    ensures Fits(N11x(a)) <==> a <= 0xff
    ensures Fits(N10t(v)) <==> -0x80 <= v <= 0x7f
  {
  }

  /** Of two. */
  lemma FieldsExactly(a: nat, b: nat, c: nat, v: int)
    ensures Fits(N20t(v)) <==> -0x8000 <= v <= 0x7fff
    ensures Fits(N22x(a, b)) <==> a <= 0xff && b <= 0xffff
    ensures Fits(N21t(a, v)) == Fits(N21s(a, v)) == (a <= 0xff && -0x8000 <= v <= 0x7fff)
    ensures Fits(N21h(a, b)) == Fits(N21c(a, b)) == (a <= 0xff && b <= 0xffff)
    ensures Fits(N23x(a, b, c)) <==> a <= 0xff && b <= 0xff && c <= 0xff
    ensures Fits(N22b(a, b, v)) <==> a <= 0xff && b <= 0xff && -0x80 <= v <= 0x7f
    ensures Fits(N22t(a, b, v)) == Fits(N22s(a, b, v)) == (a <= 15 && b <= 15 && -0x8000 <= v <= 0x7fff)
    ensures Fits(N22c(a, b, c)) <==> a <= 15 && b <= 15 && c <= 0xffff
  {
  }

  /** And of three or five. */
  lemma LongFieldsExactly(a: nat, b: nat, v: int)
    ensures Fits(N30t(v)) <==> -0x8000_0000 <= v <= 0x7fff_ffff
    ensures Fits(N32x(a, b)) <==> a <= 0xffff && b <= 0xffff
    ensures Fits(N31i(a, v)) == Fits(N31t(a, v)) == (a <= 0xff && -0x8000_0000 <= v <= 0x7fff_ffff)
    ensures Fits(N31c(a, b)) <==> a <= 0xff && b <= 0xffff_ffff
    ensures Fits(N51l(a, b)) <==> a <= 0xff && b <= 0xffff_ffff_ffff_ffff
  {
  }

  /** And a call: up to five registers, or a range of up to 255; then tables of every size their headers can say. */
  lemma ItemsExactly(rs: seq<nat>, a: nat, b: nat, c: nat, p: nat, body: Units)
    ensures Fits(N35c(rs, c)) <==> |rs| <= 5 && c <= 0xffff && forall r :: r in rs ==> r <= 15
    ensures Fits(N45cc(rs, c, p)) <==> Fits(N35c(rs, c)) && p <= 0xffff
    ensures Fits(N3rc(a, b, c)) <==> a <= 0xff && b <= 0xffff && c <= 0xffff
    ensures Fits(N4rcc(a, b, c, p)) <==> Fits(N3rc(a, b, c)) && p <= 0xffff
    ensures Legal(Packed(a, body)) <==> a <= 0xffff && AreUnits(body) && |body| == 2 + 2 * a
    ensures Legal(Sparse(a, body)) <==> a <= 0xffff && AreUnits(body) && |body| == 4 * a
    ensures Legal(Filled(a, b, body)) <==>
            a <= 0xffff && b <= 0xffff_ffff && AreUnits(body) && |body| == (b * a + 1) / 2
    ensures forall f :: Legal(Instruction(a, f)) <==> a <= 0xff && Fits(f) && FormatOf(a) == FieldsFormat(f)
  {
    hide AreUnits;
  }
}
