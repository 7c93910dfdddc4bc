/** The A64 instruction fields the scanner decodes, and the encodings they undo. */
module A64 {
  import opened Bytes

  type Word = x: int | 0 <= x < TWO32

  function SignExtend(v: int, half: int): (r: int)
    requires 0 <= v < 2 * half
    ensures -half <= r < half && (r == v || r == v - 2 * half)
  {
    if v >= half then v - 2 * half else v
  }

  predicate IsBl(w: Word) { w / 0x400_0000 == 0x25 }
  predicate IsB(w: Word) { w / 0x400_0000 == 0x05 }
  predicate IsBCond(w: Word) { w / 0x100_0000 == 0x54 }
  // CBZ/CBNZ and TBZ/TBNZ in either register width: bit 31 is free, and so is bit 24.
  predicate IsCbz(w: Word) { w / 0x200_0000 % 0x40 == 0x1A }
  predicate IsTbz(w: Word) { w / 0x200_0000 % 0x40 == 0x1B }
  predicate IsBlr(w: Word) { w / 0x400 == 0xD63F_0000 / 0x400 && w % 0x20 == 0 }
  predicate IsBr(w: Word) { w / 0x400 == 0xD61F_0000 / 0x400 && w % 0x20 == 0 }
  predicate IsAdrp(w: Word) { w / 0x8000_0000 == 1 && w / 0x100_0000 % 0x20 == 0x10 }
  predicate IsAdr(w: Word) { w / 0x8000_0000 == 0 && w / 0x100_0000 % 0x20 == 0x10 }
  predicate IsLdr(w: Word) { w / 0x40_0000 == 0xF940_0000 / 0x40_0000 }
  predicate IsAdd(w: Word) { w / 0x80_0000 == 0x9100_0000 / 0x80_0000 }

  const REGISTERS := 32
  const RET: Word := 0xD65F_03C0

  function Rd(w: Word): (r: int)
    ensures 0 <= r < REGISTERS
  {
    w % 0x20
  }

  function Rn(w: Word): (r: int)
    ensures 0 <= r < REGISTERS
  {
    w / 0x20 % 0x20
  }

  function Imm12(w: Word): int { w / 0x400 % 0x1000 }

  function BlTarget(w: Word, pc: int): int
  {
    pc + SignExtend(w % 0x400_0000, 0x200_0000) * 4
  }

  function B19Target(w: Word, pc: int): int
  {
    pc + SignExtend(w / 0x20 % 0x8_0000, 0x4_0000) * 4
  }

  function B14Target(w: Word, pc: int): int
  {
    pc + SignExtend(w / 0x20 % 0x4000, 0x2000) * 4
  }

  function AdrImm(w: Word): int
  {
    SignExtend((w / 0x20 % 0x8_0000) * 4 + w / 0x2000_0000 % 4, 0x10_0000)
  }

  function AdrpPage(w: Word, pc: int): int
  {
    pc - pc % 4096 + AdrImm(w) * 4096
  }

  function AdrTarget(w: Word, pc: int): int
  {
    pc + AdrImm(w)
  }

  /** BL reaches every word within 128 MiB, and the decoder recovers the displacement. */
  lemma BlDecodes(pc: int, words: int)
    requires -0x200_0000 <= words < 0x200_0000
    ensures var w := 0x9400_0000 + words % 0x400_0000; IsBl(w) && BlTarget(w, pc) == pc + 4 * words
    ensures var w := 0x1400_0000 + words % 0x400_0000; IsB(w) && BlTarget(w, pc) == pc + 4 * words
  {
  }

  lemma ConditionalDecodes(pc: int, words: int, low: int)
    requires -0x4_0000 <= words < 0x4_0000 && 0 <= low < 0x20
    ensures var field := (words % 0x8_0000) * 0x20 + low;
            && IsBCond(0x5400_0000 + field) && B19Target(0x5400_0000 + field, pc) == pc + 4 * words
            && IsCbz(0x3400_0000 + field) && IsCbz(0xB500_0000 + field)
            && B19Target(0xB500_0000 + field, pc) == pc + 4 * words
  {
    Displacement19(pc, words, low, 0x54);
    Displacement19(pc, words, low, 0xB5);
  }

  lemma Displacement19(pc: int, words: int, low: int, top: int)
    requires -0x4_0000 <= words < 0x4_0000 && 0 <= low < 0x20 && 0 <= top < 0x100
    ensures var w := top * 0x100_0000 + ((words % 0x8_0000) * 0x20 + low);
            w < TWO32 && B19Target(w, pc) == pc + 4 * words
  {
    var imm := words % 0x8_0000;
    Split(top * 0x8_0000 + imm, 0x20, low);
    Split(top, 0x8_0000, imm);
    assert SignExtend(imm, 0x4_0000) == words;
  }

  lemma TestBranchDecodes(pc: int, words: int, bit: int, low: int, base: int)
    requires -0x2000 <= words < 0x2000 && 0 <= bit < 0x20 && 0 <= low < 0x20
    requires base == 0x36 || base == 0x37 || base == 0xB6 || base == 0xB7
    ensures var w := base * 0x100_0000 + bit * 0x8_0000 + (words % 0x4000) * 0x20 + low;
            IsTbz(w) && B14Target(w, pc) == pc + 4 * words
  {
    var imm := words % 0x4000;
    var w: Word := base * 0x100_0000 + bit * 0x8_0000 + imm * 0x20 + low;
    assert w / 0x20 == (base * 0x20 + bit) * 0x4000 + imm;
    assert SignExtend(imm, 0x2000) == words;
    assert w / 0x200_0000 == base / 2;
  }

  /** The displacement ADR and ADRP split over two fields, `hi` and `lo`, put together again. */
  lemma AdrDecodes(top: int, hi: int, lo: int, rd: int)
    requires 0 <= hi < 0x8_0000 && 0 <= lo < 4 && 0 <= rd < 0x20 && (top == 0 || top == 1)
    ensures var w := (top * 4 + lo) * 0x2000_0000 + (0x1000_0000 + hi * 0x20 + rd);
            && 0 <= w < TWO32 && (if top == 1 then IsAdrp(w) else IsAdr(w)) && Rd(w) == rd
            && AdrImm(w) == (if hi < 0x4_0000 then 4 * hi + lo else 4 * hi + lo - 0x20_0000)
  {
    var w: Word := (top * 4 + lo) * 0x2000_0000 + (0x1000_0000 + hi * 0x20 + rd);
    Split(top * 4 + lo, 0x2000_0000, 0x1000_0000 + hi * 0x20 + rd);
    Split(top * 0x80 + lo * 0x20 + 0x10, 0x100_0000, hi * 0x20 + rd);
    Split((top * 0x80 + lo * 0x20 + 0x10) * 0x8_0000 + hi, 0x20, rd);
    Split(top * 0x80 + lo * 0x20 + 0x10, 0x8_0000, hi);
  }

  // ---------------------------------------------------------------- words and addresses

  /** Each class of word is these encodings and no others. */
  lemma BranchWords(w: Word)
    ensures IsBl(w) <==> 0x9400_0000 <= w < 0x9800_0000
    ensures IsB(w) <==> 0x1400_0000 <= w < 0x1800_0000
    ensures IsBCond(w) <==> 0x5400_0000 <= w < 0x5500_0000
    ensures IsCbz(w) <==> 0x3400_0000 <= w < 0x3600_0000 || 0xB400_0000 <= w < 0xB600_0000
    ensures IsTbz(w) <==> 0x3600_0000 <= w < 0x3800_0000 || 0xB600_0000 <= w < 0xB800_0000
  {
  }

  lemma AddressWords(w: Word)
    ensures IsAdr(w) <==> || 0x1000_0000 <= w < 0x1100_0000 || 0x3000_0000 <= w < 0x3100_0000
                          || 0x5000_0000 <= w < 0x5100_0000 || 0x7000_0000 <= w < 0x7100_0000
    ensures IsAdrp(w) <==> || 0x9000_0000 <= w < 0x9100_0000 || 0xB000_0000 <= w < 0xB100_0000
                           || 0xD000_0000 <= w < 0xD100_0000 || 0xF000_0000 <= w < 0xF100_0000
    ensures IsLdr(w) <==> 0xF940_0000 <= w < 0xF980_0000
    ensures IsAdd(w) <==> 0x9100_0000 <= w < 0x9180_0000
  {
  }

  /** BLR and BR of each register, and nothing else. */
  lemma RegisterBranchWords(w: Word)
    ensures IsBlr(w) <==> exists n :: 0 <= n < 32 && w == 0xD63F_0000 + 0x20 * n
    ensures IsBr(w) <==> exists n :: 0 <= n < 32 && w == 0xD61F_0000 + 0x20 * n
  {
    if IsBlr(w) {
      assert w == 0xD63F_0000 + 0x20 * ((w - 0xD63F_0000) / 0x20);
    }
    if IsBr(w) {
      assert w == 0xD61F_0000 + 0x20 * ((w - 0xD61F_0000) / 0x20);
    }
  }

  /** What ADRP computes is a page: the one the displacement from its own page leads to. */
  lemma AdrpNamesPage(w: Word, pc: int)
    ensures AdrpPage(w, pc) % 4096 == 0
    ensures AdrpPage(w, pc) <= pc + AdrImm(w) * 4096 < AdrpPage(w, pc) + 4096
  {
  }

  /** ADRP of a register, `pages` pages on, at any address: from whatever page that address is in. */
  lemma AdrpWord(pc: int, page: int, pages: int, rd: int)
    requires page % 4096 == 0 && page <= pc < page + 4096 && -0x10_0000 <= pages < 0x10_0000 && 0 <= rd < 32
    ensures var w := 0x9000_0000 + pages % 4 * 0x2000_0000 + pages / 4 % 0x8_0000 * 0x20 + rd;
            0 <= w < TWO32 && IsAdrp(w) && Rd(w) == rd && AdrpPage(w, pc) == page + 4096 * pages
  {
    AdrDecodes(1, pages / 4 % 0x8_0000, pages % 4, rd);
    SignedHalves(pages);
    AdrpNamesPage(0x9000_0000 + pages % 4 * 0x2000_0000 + pages / 4 % 0x8_0000 * 0x20 + rd, pc);
  }

  lemma SignedHalves(v: int)
    requires -0x10_0000 <= v < 0x10_0000
    ensures var hi := v / 4 % 0x8_0000; v == if hi < 0x4_0000 then 4 * hi + v % 4 else 4 * hi + v % 4 - 0x20_0000
  {
  }

  /** ADR of a register, any displacement it can hold. */
  lemma AdrWord(pc: int, displacement: int, rd: int)
    requires -0x10_0000 <= displacement < 0x10_0000 && 0 <= rd < 32
    ensures var w := 0x1000_0000 + displacement % 4 * 0x2000_0000 + displacement / 4 % 0x8_0000 * 0x20 + rd;
            0 <= w < TWO32 && IsAdr(w) && !IsAdrp(w) && AdrTarget(w, pc) == pc + displacement
  {
    AdrDecodes(0, displacement / 4 % 0x8_0000, displacement % 4, rd);
    SignedHalves(displacement);
  }

  /** The registers and the immediate of a word, below its top ten bits. */
  lemma WordFields(top: int, imm: int, rn: int, rd: int)
    requires 0 <= imm < 0x1000 && 0 <= rn < 0x20 && 0 <= rd < 0x20
    ensures var w := (top * 0x1000 + imm) * 0x400 + rn * 0x20 + rd;
            w / 0x400 % 0x1000 == imm && w / 0x20 % 0x20 == rn
  {
    Split(top * 0x1000 + imm, 0x400, rn * 0x20 + rd);
    Split(top, 0x1000, imm);
    Split((top * 0x1000 + imm) * 0x20 + rn, 0x20, rd);
    Split(top * 0x1000 + imm, 0x20, rn);
  }

  /** LDR of a 64-bit register, from any byte offset it can hold off any base. */
  lemma LdrWord(offset: int, rn: int, rt: int)
    requires 0 <= offset < 0x8000 && offset % 8 == 0 && 0 <= rn < 32 && 0 <= rt < 32
    ensures var w := 0xF940_0000 + offset / 8 * 0x400 + rn * 0x20 + rt;
            w < TWO32 && IsLdr(w) && !IsAdr(w) && !IsAdrp(w) && !IsAdd(w) && Rn(w) == rn && Imm12(w) * 8 == offset
  {
    var imm := offset / 8;
    LdrKind(0xF940_0000 + imm * 0x400 + rn * 0x20 + rt);
    WordFields(0x3E5, imm, rn, rt);
    hide IsLdr, IsAdr, IsAdrp, IsAdd;
    assert (0x3E5 * 0x1000 + imm) * 0x400 == 0xF940_0000 + imm * 0x400;
  }

  lemma LdrKind(w: Word)
    requires 0xF940_0000 <= w < 0xF980_0000
    ensures IsLdr(w) && !IsAdr(w) && !IsAdrp(w) && !IsAdd(w)
  {
  }

  /** ADD of an immediate to any base; the shift bit is ignored. */
  lemma AddWord(imm: int, shift: int, rn: int, rd: int)
    requires 0 <= imm < 0x1000 && (shift == 0 || shift == 1) && 0 <= rn < 32 && 0 <= rd < 32
    ensures var w := 0x9100_0000 + shift * 0x40_0000 + imm * 0x400 + rn * 0x20 + rd;
            w < TWO32 && IsAdd(w) && !IsAdr(w) && !IsAdrp(w) && !IsLdr(w) && Rn(w) == rn && Imm12(w) == imm
  {
    AddKind(0x9100_0000 + shift * 0x40_0000 + imm * 0x400 + rn * 0x20 + rd);
    WordFields(0x244 + shift, imm, rn, rd);
    hide IsLdr, IsAdr, IsAdrp, IsAdd;
    assert ((0x244 + shift) * 0x1000 + imm) * 0x400 == 0x9100_0000 + shift * 0x40_0000 + imm * 0x400;
  }

  lemma AddKind(w: Word)
    requires 0x9100_0000 <= w < 0x9180_0000
    ensures IsAdd(w) && !IsAdr(w) && !IsAdrp(w) && !IsLdr(w)
  {
  }
}
