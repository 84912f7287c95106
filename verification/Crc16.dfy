/** The Modbus checksum of iec104/plcserver.c: getCRC16 reads two 256-entry tables. It is proved
    equal to the bit-serial register of section 6.2.2 of "MODBUS over Serial Line Specification
    and Implementation Guide V1.02", and the register's algebra gives what the checksum detects. */
module Crc16 {

  // ----- the two tables of the source, sixteen entries to a row -----

  datatype Row = Row(
    c0: bv8, c1: bv8, c2: bv8, c3: bv8, c4: bv8, c5: bv8, c6: bv8, c7: bv8,
    c8: bv8, c9: bv8, cA: bv8, cB: bv8, cC: bv8, cD: bv8, cE: bv8, cF: bv8)

  function Top(i: bv8): bv8 { i >> 4 }

  function Bottom(i: bv8): bv8 { i & 15 }

  function Up(r: bv8): bv8 { r << 4 }

  function Pick(row: Row, k: bv8): bv8 {
    match k
    case 0 => row.c0 case 1 => row.c1 case 2 => row.c2 case 3 => row.c3
    case 4 => row.c4 case 5 => row.c5 case 6 => row.c6 case 7 => row.c7
    case 8 => row.c8 case 9 => row.c9 case 10 => row.cA case 11 => row.cB
    case 12 => row.cC case 13 => row.cD case 14 => row.cE case _ => row.cF
  }

  // auchCRCHi
  function Hi0(): Row {
    Row(0x00, 0xC1, 0x81, 0x40, 0x01, 0xC0, 0x80, 0x41, 0x01, 0xC0, 0x80, 0x41, 0x00, 0xC1, 0x81, 0x40)
  }

  function Hi1(): Row {
    Row(0x01, 0xC0, 0x80, 0x41, 0x00, 0xC1, 0x81, 0x40, 0x00, 0xC1, 0x81, 0x40, 0x01, 0xC0, 0x80, 0x41)
  }

  function Hi2(): Row {
    Row(0x01, 0xC0, 0x80, 0x41, 0x00, 0xC1, 0x81, 0x40, 0x00, 0xC1, 0x81, 0x40, 0x01, 0xC0, 0x80, 0x41)
  }

  function Hi3(): Row {
    Row(0x00, 0xC1, 0x81, 0x40, 0x01, 0xC0, 0x80, 0x41, 0x01, 0xC0, 0x80, 0x41, 0x00, 0xC1, 0x81, 0x40)
  }

  function Hi4(): Row {
    Row(0x01, 0xC0, 0x80, 0x41, 0x00, 0xC1, 0x81, 0x40, 0x00, 0xC1, 0x81, 0x40, 0x01, 0xC0, 0x80, 0x41)
  }

  function Hi5(): Row {
    Row(0x00, 0xC1, 0x81, 0x40, 0x01, 0xC0, 0x80, 0x41, 0x01, 0xC0, 0x80, 0x41, 0x00, 0xC1, 0x81, 0x40)
  }

  function Hi6(): Row {
    Row(0x00, 0xC1, 0x81, 0x40, 0x01, 0xC0, 0x80, 0x41, 0x01, 0xC0, 0x80, 0x41, 0x00, 0xC1, 0x81, 0x40)
  }

  function Hi7(): Row {
    Row(0x01, 0xC0, 0x80, 0x41, 0x00, 0xC1, 0x81, 0x40, 0x00, 0xC1, 0x81, 0x40, 0x01, 0xC0, 0x80, 0x41)
  }

  function Hi8(): Row {
    Row(0x01, 0xC0, 0x80, 0x41, 0x00, 0xC1, 0x81, 0x40, 0x00, 0xC1, 0x81, 0x40, 0x01, 0xC0, 0x80, 0x41)
  }

  function Hi9(): Row {
    Row(0x00, 0xC1, 0x81, 0x40, 0x01, 0xC0, 0x80, 0x41, 0x01, 0xC0, 0x80, 0x41, 0x00, 0xC1, 0x81, 0x40)
  }

  function HiA(): Row {
    Row(0x00, 0xC1, 0x81, 0x40, 0x01, 0xC0, 0x80, 0x41, 0x01, 0xC0, 0x80, 0x41, 0x00, 0xC1, 0x81, 0x40)
  }

  function HiB(): Row {
    Row(0x01, 0xC0, 0x80, 0x41, 0x00, 0xC1, 0x81, 0x40, 0x00, 0xC1, 0x81, 0x40, 0x01, 0xC0, 0x80, 0x41)
  }

  function HiC(): Row {
    Row(0x00, 0xC1, 0x81, 0x40, 0x01, 0xC0, 0x80, 0x41, 0x01, 0xC0, 0x80, 0x41, 0x00, 0xC1, 0x81, 0x40)
  }

  function HiD(): Row {
    Row(0x01, 0xC0, 0x80, 0x41, 0x00, 0xC1, 0x81, 0x40, 0x00, 0xC1, 0x81, 0x40, 0x01, 0xC0, 0x80, 0x41)
  }

  function HiE(): Row {
    Row(0x01, 0xC0, 0x80, 0x41, 0x00, 0xC1, 0x81, 0x40, 0x00, 0xC1, 0x81, 0x40, 0x01, 0xC0, 0x80, 0x41)
  }

  function HiF(): Row {
    Row(0x00, 0xC1, 0x81, 0x40, 0x01, 0xC0, 0x80, 0x41, 0x01, 0xC0, 0x80, 0x41, 0x00, 0xC1, 0x81, 0x40)
  }

  function HiRow(r: bv8): Row {
    match r
    case 0 => Hi0() case 1 => Hi1() case 2 => Hi2() case 3 => Hi3()
    case 4 => Hi4() case 5 => Hi5() case 6 => Hi6() case 7 => Hi7()
    case 8 => Hi8() case 9 => Hi9() case 10 => HiA() case 11 => HiB()
    case 12 => HiC() case 13 => HiD() case 14 => HiE() case _ => HiF()
  }

  /** auchCRCHi[i] */
  function TableHi(i: bv8): bv8 { Pick(HiRow(Top(i)), Bottom(i)) }

  // auchCRCLo
  function Lo0(): Row {
    Row(0x00, 0xC0, 0xC1, 0x01, 0xC3, 0x03, 0x02, 0xC2, 0xC6, 0x06, 0x07, 0xC7, 0x05, 0xC5, 0xC4, 0x04)
  }

  function Lo1(): Row {
    Row(0xCC, 0x0C, 0x0D, 0xCD, 0x0F, 0xCF, 0xCE, 0x0E, 0x0A, 0xCA, 0xCB, 0x0B, 0xC9, 0x09, 0x08, 0xC8)
  }

  function Lo2(): Row {
    Row(0xD8, 0x18, 0x19, 0xD9, 0x1B, 0xDB, 0xDA, 0x1A, 0x1E, 0xDE, 0xDF, 0x1F, 0xDD, 0x1D, 0x1C, 0xDC)
  }

  function Lo3(): Row {
    Row(0x14, 0xD4, 0xD5, 0x15, 0xD7, 0x17, 0x16, 0xD6, 0xD2, 0x12, 0x13, 0xD3, 0x11, 0xD1, 0xD0, 0x10)
  }

  function Lo4(): Row {
    Row(0xF0, 0x30, 0x31, 0xF1, 0x33, 0xF3, 0xF2, 0x32, 0x36, 0xF6, 0xF7, 0x37, 0xF5, 0x35, 0x34, 0xF4)
  }

  function Lo5(): Row {
    Row(0x3C, 0xFC, 0xFD, 0x3D, 0xFF, 0x3F, 0x3E, 0xFE, 0xFA, 0x3A, 0x3B, 0xFB, 0x39, 0xF9, 0xF8, 0x38)
  }

  function Lo6(): Row {
    Row(0x28, 0xE8, 0xE9, 0x29, 0xEB, 0x2B, 0x2A, 0xEA, 0xEE, 0x2E, 0x2F, 0xEF, 0x2D, 0xED, 0xEC, 0x2C)
  }

  function Lo7(): Row {
    Row(0xE4, 0x24, 0x25, 0xE5, 0x27, 0xE7, 0xE6, 0x26, 0x22, 0xE2, 0xE3, 0x23, 0xE1, 0x21, 0x20, 0xE0)
  }

  function Lo8(): Row {
    Row(0xA0, 0x60, 0x61, 0xA1, 0x63, 0xA3, 0xA2, 0x62, 0x66, 0xA6, 0xA7, 0x67, 0xA5, 0x65, 0x64, 0xA4)
  }

  function Lo9(): Row {
    Row(0x6C, 0xAC, 0xAD, 0x6D, 0xAF, 0x6F, 0x6E, 0xAE, 0xAA, 0x6A, 0x6B, 0xAB, 0x69, 0xA9, 0xA8, 0x68)
  }

  function LoA(): Row {
    Row(0x78, 0xB8, 0xB9, 0x79, 0xBB, 0x7B, 0x7A, 0xBA, 0xBE, 0x7E, 0x7F, 0xBF, 0x7D, 0xBD, 0xBC, 0x7C)
  }

  function LoB(): Row {
    Row(0xB4, 0x74, 0x75, 0xB5, 0x77, 0xB7, 0xB6, 0x76, 0x72, 0xB2, 0xB3, 0x73, 0xB1, 0x71, 0x70, 0xB0)
  }

  function LoC(): Row {
    Row(0x50, 0x90, 0x91, 0x51, 0x93, 0x53, 0x52, 0x92, 0x96, 0x56, 0x57, 0x97, 0x55, 0x95, 0x94, 0x54)
  }

  function LoD(): Row {
    Row(0x9C, 0x5C, 0x5D, 0x9D, 0x5F, 0x9F, 0x9E, 0x5E, 0x5A, 0x9A, 0x9B, 0x5B, 0x99, 0x59, 0x58, 0x98)
  }

  function LoE(): Row {
    Row(0x88, 0x48, 0x49, 0x89, 0x4B, 0x8B, 0x8A, 0x4A, 0x4E, 0x8E, 0x8F, 0x4F, 0x8D, 0x4D, 0x4C, 0x8C)
  }

  function LoF(): Row {
    Row(0x44, 0x84, 0x85, 0x45, 0x87, 0x47, 0x46, 0x86, 0x82, 0x42, 0x43, 0x83, 0x41, 0x81, 0x80, 0x40)
  }

  function LoRow(r: bv8): Row {
    match r
    case 0 => Lo0() case 1 => Lo1() case 2 => Lo2() case 3 => Lo3()
    case 4 => Lo4() case 5 => Lo5() case 6 => Lo6() case 7 => Lo7()
    case 8 => Lo8() case 9 => Lo9() case 10 => LoA() case 11 => LoB()
    case 12 => LoC() case 13 => LoD() case 14 => LoE() case _ => LoF()
  }

  /** auchCRCLo[i] */
  function TableLo(i: bv8): bv8 { Pick(LoRow(Top(i)), Bottom(i)) }

  // ----- the bit-serial register -----

  const INIT: bv16 := 0xFFFF

  function X(a: bv16, b: bv16): bv16 { a ^ b }

  function Wide(b: bv8): bv16 { b as bv16 }

  function High(b: bv8): bv16 { (b as bv16) << 8 }

  function Swap(c: bv16): bv16 { (c << 8) | (c >> 8) }

  /** One shift to the right; the bit that falls out selects the polynomial 0xA001. */
  function BitStep(c: bv16): bv16 {
    if c & 1 == 1 then (c >> 1) ^ 0xA001 else c >> 1
  }

  function Steps(c: bv16, n: nat): bv16
    decreases n
  {
    if n == 0 then c else Steps(BitStep(c), n - 1)
  }

  /** Section 6.2.2: XOR the byte into the low end of the register, then shift eight times. */
  function Register(c: bv16, message: seq<bv8>): bv16
    decreases message
  {
    if message == [] then c else Register(Steps(X(c, Wide(message[0])), 8), message[1..])
  }

  function Crc(message: seq<bv8>): bv16 { Register(INIT, message) }

  // ----- the tables hold eight steps from every byte -----

  function Eight(c: bv16): bv16 {
    BitStep(BitStep(BitStep(BitStep(BitStep(BitStep(BitStep(BitStep(c))))))))
  }

  lemma EightSteps(c: bv16)
    ensures Steps(c, 8) == Eight(c)
  {
    hide BitStep;
    var d := BitStep(BitStep(BitStep(BitStep(c))));
    assert Steps(c, 8) == Steps(BitStep(BitStep(c)), 6) == Steps(d, 4);
    assert Steps(d, 4) == Steps(BitStep(BitStep(d)), 2);
  }

  function HiOf(i: bv8): bv8 { (Eight(i as bv16) & 0xFF) as bv8 }

  function LoOf(i: bv8): bv8 { (Eight(i as bv16) >> 8) as bv8 }

  function Or(b: bv8, k: bv8): bv8 { b | k }

  function HiRowOf(b: bv8): Row {
    Row(
      HiOf(Or(b, 0)), HiOf(Or(b, 1)), HiOf(Or(b, 2)), HiOf(Or(b, 3)),
      HiOf(Or(b, 4)), HiOf(Or(b, 5)), HiOf(Or(b, 6)), HiOf(Or(b, 7)),
      HiOf(Or(b, 8)), HiOf(Or(b, 9)), HiOf(Or(b, 10)), HiOf(Or(b, 11)),
      HiOf(Or(b, 12)), HiOf(Or(b, 13)), HiOf(Or(b, 14)), HiOf(Or(b, 15)))
  }

  function LoRowOf(b: bv8): Row {
    Row(
      LoOf(Or(b, 0)), LoOf(Or(b, 1)), LoOf(Or(b, 2)), LoOf(Or(b, 3)),
      LoOf(Or(b, 4)), LoOf(Or(b, 5)), LoOf(Or(b, 6)), LoOf(Or(b, 7)),
      LoOf(Or(b, 8)), LoOf(Or(b, 9)), LoOf(Or(b, 10)), LoOf(Or(b, 11)),
      LoOf(Or(b, 12)), LoOf(Or(b, 13)), LoOf(Or(b, 14)), LoOf(Or(b, 15)))
  }

  lemma Row0()
    ensures Hi0() == HiRowOf(0x00) && Lo0() == LoRowOf(0x00)
  {
  }

  lemma Row1()
    ensures Hi1() == HiRowOf(0x10) && Lo1() == LoRowOf(0x10)
  {
  }

  lemma Row2()
    ensures Hi2() == HiRowOf(0x20) && Lo2() == LoRowOf(0x20)
  {
  }

  lemma Row3()
    ensures Hi3() == HiRowOf(0x30) && Lo3() == LoRowOf(0x30)
  {
  }

  lemma Row4()
    ensures Hi4() == HiRowOf(0x40) && Lo4() == LoRowOf(0x40)
  {
  }

  lemma Row5()
    ensures Hi5() == HiRowOf(0x50) && Lo5() == LoRowOf(0x50)
  {
  }

  lemma Row6()
    ensures Hi6() == HiRowOf(0x60) && Lo6() == LoRowOf(0x60)
  {
  }

  lemma Row7()
    ensures Hi7() == HiRowOf(0x70) && Lo7() == LoRowOf(0x70)
  {
  }

  lemma Row8()
    ensures Hi8() == HiRowOf(0x80) && Lo8() == LoRowOf(0x80)
  {
  }

  lemma Row9()
    ensures Hi9() == HiRowOf(0x90) && Lo9() == LoRowOf(0x90)
  {
  }

  lemma RowA()
    ensures HiA() == HiRowOf(0xA0) && LoA() == LoRowOf(0xA0)
  {
  }

  lemma RowB()
    ensures HiB() == HiRowOf(0xB0) && LoB() == LoRowOf(0xB0)
  {
  }

  lemma RowC()
    ensures HiC() == HiRowOf(0xC0) && LoC() == LoRowOf(0xC0)
  {
  }

  lemma RowD()
    ensures HiD() == HiRowOf(0xD0) && LoD() == LoRowOf(0xD0)
  {
  }

  lemma RowE()
    ensures HiE() == HiRowOf(0xE0) && LoE() == LoRowOf(0xE0)
  {
  }

  lemma RowF()
    ensures HiF() == HiRowOf(0xF0) && LoF() == LoRowOf(0xF0)
  {
  }

  lemma PickHi(b: bv8, k: bv8)
    requires k < 16
    ensures Pick(HiRowOf(b), k) == HiOf(Or(b, k))
  {
    hide HiOf, Or;
    match k
    case 0 => case 1 => case 2 => case 3 => case 4 => case 5 => case 6 => case 7 =>
    case 8 => case 9 => case 10 => case 11 => case 12 => case 13 => case 14 => case _ =>
  }

  lemma PickLo(b: bv8, k: bv8)
    requires k < 16
    ensures Pick(LoRowOf(b), k) == LoOf(Or(b, k))
  {
    hide LoOf, Or;
    match k
    case 0 => case 1 => case 2 => case 3 => case 4 => case 5 => case 6 => case 7 =>
    case 8 => case 9 => case 10 => case 11 => case 12 => case 13 => case 14 => case _ =>
  }

  lemma RowsHold(r: bv8)
    requires r < 16
    ensures HiRow(r) == HiRowOf(Up(r)) && LoRow(r) == LoRowOf(Up(r))
  {
    hide HiRowOf, LoRowOf;
    hide Hi0, Hi1, Hi2, Hi3, Hi4, Hi5, Hi6, Hi7, Hi8, Hi9, HiA, HiB, HiC, HiD, HiE, HiF;
    hide Lo0, Lo1, Lo2, Lo3, Lo4, Lo5, Lo6, Lo7, Lo8, Lo9, LoA, LoB, LoC, LoD, LoE, LoF;
    match r
    case 0 => Row0(); case 1 => Row1(); case 2 => Row2(); case 3 => Row3();
    case 4 => Row4(); case 5 => Row5(); case 6 => Row6(); case 7 => Row7();
    case 8 => Row8(); case 9 => Row9(); case 10 => RowA(); case 11 => RowB();
    case 12 => RowC(); case 13 => RowD(); case 14 => RowE(); case _ => RowF();
  }

  lemma SplitByte(i: bv8)
    ensures Top(i) < 16 && Bottom(i) < 16 && Or(Up(Top(i)), Bottom(i)) == i
  {
  }

  lemma TableIs(i: bv8)
    ensures TableHi(i) == HiOf(i) && TableLo(i) == LoOf(i)
  {
    hide Or, Up, Top, Bottom, Pick, HiOf, LoOf, HiRow, LoRow, HiRowOf, LoRowOf;
    SplitByte(i);
    RowsHold(Top(i));
    PickHi(Up(Top(i)), Bottom(i));
    PickLo(Up(Top(i)), Bottom(i));
  }

  lemma JoinHalves(i: bv8)
    ensures X(Wide(HiOf(i)), High(LoOf(i))) == Eight(Wide(i))
  {
    hide Eight;
  }

  /** The two table entries of a byte are the register after eight steps from that byte. */
  lemma TableCorrect(i: bv8)
    ensures X(Wide(TableHi(i)), High(TableLo(i))) == Steps(Wide(i), 8)
  {
    TableIs(i);
    JoinHalves(i);
    EightSteps(Wide(i));
    hide *;
  }

  // ----- algebra of the step -----

  function Shl(a: bv16): bv16 { a << 1 }

  predicate Odd(a: bv16) { a & 1 == 1 }

  /** y leaves room for one more bit. */
  predicate Fits15(y: bv16) { y < 0x8000 }

  lemma XorAssoc(a: bv16, b: bv16, c: bv16)
    ensures X(X(a, b), c) == X(a, X(b, c))
  {
  }

  lemma XorSwap(a: bv16, b: bv16)
    ensures X(a, b) == X(b, a)
  {
  }

  lemma XorSelf(a: bv16)
    ensures X(a, a) == 0 && X(0, a) == a
  {
  }

  lemma XorBack(a: bv16, b: bv16)
    ensures X(X(a, b), b) == a
  {
  }

  lemma XorZero(a: bv16, b: bv16)
    ensures X(a, b) == 0 <==> a == b
  {
    hide X;
    XorSelf(b);
    XorBack(a, b);
  }

  lemma StepLinearBothOdd(a: bv16, b: bv16)
    requires Odd(a) && Odd(b)
    ensures BitStep(X(a, b)) == X(BitStep(a), BitStep(b))
  {
  }

  lemma StepLinearOneOdd(a: bv16, b: bv16)
    requires Odd(a) && !Odd(b)
    ensures BitStep(X(a, b)) == X(BitStep(a), BitStep(b))
  {
  }

  lemma StepLinearNoneOdd(a: bv16, b: bv16)
    requires !Odd(a) && !Odd(b)
    ensures BitStep(X(a, b)) == X(BitStep(a), BitStep(b))
  {
  }

  lemma StepLinear(a: bv16, b: bv16)
    ensures BitStep(X(a, b)) == X(BitStep(a), BitStep(b))
  {
    hide X, BitStep, Odd;
    if Odd(a) && Odd(b) {
      StepLinearBothOdd(a, b);
    } else if Odd(a) {
      StepLinearOneOdd(a, b);
    } else if Odd(b) {
      StepLinearOneOdd(b, a);
      XorSwap(a, b);
      XorSwap(BitStep(a), BitStep(b));
    } else {
      StepLinearNoneOdd(a, b);
    }
  }

  lemma StepShift(y: bv16)
    requires Fits15(y)
    ensures BitStep(Shl(y)) == y
  {
  }

  lemma StepZero(a: bv16)
    ensures BitStep(a) == 0 <==> a == 0
  {
  }

  lemma {:induction false} StepsLinear(a: bv16, b: bv16, n: nat)
    ensures Steps(X(a, b), n) == X(Steps(a, n), Steps(b, n))
    decreases n
  {
    hide X, BitStep;
    if n > 0 {
      StepLinear(a, b);
      StepsLinear(BitStep(a), BitStep(b), n - 1);
    }
  }

  lemma {:induction false} StepsZero(a: bv16, n: nat)
    ensures Steps(a, n) == 0 <==> a == 0
    decreases n
  {
    hide BitStep;
    if n > 0 {
      StepZero(a);
      StepsZero(BitStep(a), n - 1);
    }
  }

  /** Shifting is a bijection of the register, so no two states are ever merged. */
  lemma StepsInjective(a: bv16, b: bv16, n: nat)
    ensures Steps(a, n) == Steps(b, n) <==> a == b
  {
    hide *;
    StepsLinear(a, b, n);
    StepsZero(X(a, b), n);
    XorZero(a, b);
    XorZero(Steps(a, n), Steps(b, n));
  }

  lemma {:induction false} StepsPlus(c: bv16, m: nat, n: nat)
    ensures Steps(Steps(c, m), n) == Steps(c, m + n)
    decreases m
  {
    hide BitStep;
    if m > 0 {
      StepsPlus(BitStep(c), m - 1, n);
    }
  }

  // ----- shifting a byte down by eight -----

  lemma FourShl(y: bv16)
    requires y < 0x1000
    ensures Steps(y << 4, 4) == y
  {
    var y1 := Shl(y);
    var y2 := Shl(y1);
    var y3 := Shl(y2);
    assert y << 4 == Shl(y3) && Fits15(y) && Fits15(y1) && Fits15(y2) && Fits15(y3);
    StepShift(y);
    StepShift(y1);
    StepShift(y2);
    StepShift(y3);
    hide BitStep, Shl, Fits15;
    assert Steps(Shl(y3), 4) == Steps(y3, 3) == Steps(y2, 2);
  }

  lemma HighNibbles(b: bv8)
    ensures Wide(b) < 0x1000 && Wide(b) << 4 < 0x1000 && High(b) == (Wide(b) << 4) << 4
  {
  }

  lemma HighDown(b: bv8)
    ensures Steps(High(b), 8) == Wide(b)
  {
    hide *;
    var y := Wide(b);
    HighNibbles(b);
    FourShl(y);
    FourShl(y << 4);
    StepsPlus(High(b), 4, 4);
  }

  /** A byte that waits in the high half arrives in the low half after eight steps. */
  lemma AbsorbHigh(c: bv16, b: bv8)
    ensures Steps(X(c, High(b)), 8) == X(Steps(c, 8), Wide(b))
  {
    hide *;
    StepsLinear(c, High(b), 8);
    HighDown(b);
  }

  function Join(hi: bv8, lo: bv8): bv16 { X(Wide(hi), High(lo)) }

  function X8(a: bv8, b: bv8): bv8 { a ^ b }

  function Result(hi: bv8, lo: bv8): bv16 { ((hi as bv16) << 8) | (lo as bv16) }

  lemma JoinBytes(hi: bv8, lo: bv8, m: bv8)
    ensures X(Join(hi, lo), Wide(m)) == X(Wide(X8(hi, m)), High(lo))
  {
  }

  lemma JoinTables(a: bv8, b: bv8, lo: bv8)
    ensures X(Join(a, b), Wide(lo)) == Join(X8(lo, a), b)
  {
  }

  lemma JoinResult(hi: bv8, lo: bv8)
    ensures Result(hi, lo) == Swap(Join(hi, lo))
  {
  }

  lemma JoinStart()
    ensures Join(0xFF, 0xFF) == INIT
  {
  }

  /** One turn of the loop of getCRC16. */
  lemma OneByte(hi: bv8, lo: bv8, m: bv8)
    ensures Steps(X(Join(hi, lo), Wide(m)), 8) == Join(X8(lo, TableHi(X8(hi, m))), TableLo(X8(hi, m)))
  {
    hide X, X8, Wide, High, Steps, TableHi, TableLo;
    var i := X8(hi, m);
    TableCorrect(i);
    JoinBytes(hi, lo, m);
    AbsorbHigh(Wide(i), lo);
    JoinTables(TableHi(i), TableLo(i), lo);
  }

  lemma {:induction false} RegisterSnoc(c: bv16, message: seq<bv8>, m: bv8)
    ensures Register(c, message + [m]) == Steps(X(Register(c, message), Wide(m)), 8)
    decreases message
  {
    hide X, Wide, Steps;
    if message == [] {
      assert (message + [m])[1..] == [];
      assert (message + [m])[0] == m;
    } else {
      assert (message + [m])[1..] == message[1..] + [m];
      RegisterSnoc(Steps(X(c, Wide(message[0])), 8), message[1..], m);
    }
  }

  /** getCRC16: the two bytes of the standard register, swapped. `length` is one unsigned char. */
  method GetCRC16(message: seq<bv8>) returns (fcs: bv16)
    requires |message| <= 255
    ensures fcs == Swap(Crc(message))
  {
    hide Join, X, X8, Wide, High, Swap, Result, TableHi, TableLo, Steps;
    var crcHi: bv8, crcLo: bv8 := 0xFF, 0xFF;
    JoinStart();
    var i := 0;
    while i < |message|
      invariant 0 <= i <= |message|
      invariant Join(crcHi, crcLo) == Register(INIT, message[..i])
    {
      var index := X8(crcHi, message[i]);
      OneByte(crcHi, crcLo, message[i]);
      RegisterSnoc(INIT, message[..i], message[i]);
      assert message[..i + 1] == message[..i] + [message[i]];
      crcHi := X8(crcLo, TableHi(index));
      crcLo := TableLo(index);
      i := i + 1;
    }
    assert message[..i] == message;
    JoinResult(crcHi, crcLo);
    fcs := Result(crcHi, crcLo);
  }

  // ----- what the checksum catches -----

  /** The bits of a message in the order they are shifted in, least significant first. */
  function BitsOf(w: bv16, n: nat): (bits: seq<bool>)
    ensures |bits| == n
    decreases n
  {
    if n == 0 then [] else [Odd(w)] + BitsOf(w >> 1, n - 1)
  }

  function Bits(message: seq<bv8>): (bits: seq<bool>)
    ensures |bits| == 8 * |message|
    decreases message
  {
    if message == [] then [] else BitsOf(Wide(message[0]), 8) + Bits(message[1..])
  }

  function Bit(b: bool): bv16 { if b then 1 else 0 }

  function RunBits(c: bv16, bits: seq<bool>): bv16
    decreases bits
  {
    if bits == [] then c else RunBits(BitStep(X(c, Bit(bits[0]))), bits[1..])
  }

  function Cons(b: bool, y: bv16): bv16 { X(Bit(b), Shl(y)) }

  /** At most sixteen bits as one register value. */
  function Pack(bits: seq<bool>): bv16
    decreases bits
  {
    if bits == [] then 0 else Cons(bits[0], Pack(bits[1..]))
  }

  /** Two to the power n. */
  function Limit(n: nat): bv16
    requires n <= 15
  {
    match n
    case 0 => 1 case 1 => 2 case 2 => 4 case 3 => 8 case 4 => 16 case 5 => 32 case 6 => 64 case 7 => 128
    case 8 => 0x100 case 9 => 0x200 case 10 => 0x400 case 11 => 0x800
    case 12 => 0x1000 case 13 => 0x2000 case 14 => 0x4000 case _ => 0x8000
  }

  lemma ConsLimit(b: bool, y: bv16, n: nat)
    requires n < 15 && y < Limit(n)
    ensures Cons(b, y) < Limit(n + 1)
  {
  }

  lemma LimitFits(y: bv16, n: nat)
    requires n <= 15 && y < Limit(n)
    ensures Fits15(y)
  {
  }

  lemma ConsInjective(a: bool, y: bv16, b: bool, z: bv16)
    requires Fits15(y) && Fits15(z) && Cons(a, y) == Cons(b, z)
    ensures a == b && y == z
  {
  }

  lemma {:induction false} PackSmall(bits: seq<bool>)
    requires |bits| <= 15
    ensures Pack(bits) < Limit(|bits|)
    decreases bits
  {
    hide Cons;
    if bits != [] {
      hide Limit;
      PackSmall(bits[1..]);
      ConsLimit(bits[0], Pack(bits[1..]), |bits| - 1);
    }
  }

  lemma PackFits(bits: seq<bool>)
    requires |bits| <= 15
    ensures Fits15(Pack(bits))
  {
    hide *;
    PackSmall(bits);
    LimitFits(Pack(bits), |bits|);
  }

  lemma {:induction false} PackInjective(u: seq<bool>, v: seq<bool>)
    requires |u| == |v| <= 16
    ensures Pack(u) == Pack(v) <==> u == v
    decreases u
  {
    hide Cons;
    if u != [] && Pack(u) == Pack(v) {
      hide Fits15;
      PackFits(u[1..]);
      PackFits(v[1..]);
      ConsInjective(u[0], Pack(u[1..]), v[0], Pack(v[1..]));
      PackInjective(u[1..], v[1..]);
      assert u == [u[0]] + u[1..];
      assert v == [v[0]] + v[1..];
    }
  }

  lemma StepCons(c: bv16, b: bool, y: bv16)
    requires Fits15(y)
    ensures BitStep(X(c, Cons(b, y))) == X(BitStep(X(c, Bit(b))), y)
  {
    hide X, BitStep, Fits15, Bit, Shl;
    XorAssoc(c, Bit(b), Shl(y));
    StepLinear(X(c, Bit(b)), Shl(y));
    StepShift(y);
  }

  lemma XorNothing(c: bv16)
    ensures X(c, 0) == c
  {
  }

  /** Up to sixteen bits shifted in one by one are one value added to the register first. */
  lemma {:induction false} RunPack(c: bv16, bits: seq<bool>)
    requires |bits| <= 16
    ensures RunBits(c, bits) == Steps(X(c, Pack(bits)), |bits|)
    decreases bits
  {
    hide X, BitStep, Bit, Cons, Fits15;
    if bits == [] {
      XorNothing(c);
    } else {
      PackFits(bits[1..]);
      StepCons(c, bits[0], Pack(bits[1..]));
      RunPack(BitStep(X(c, Bit(bits[0]))), bits[1..]);
    }
  }

  lemma {:induction false} RunAppend(c: bv16, a: seq<bool>, b: seq<bool>)
    ensures RunBits(c, a + b) == RunBits(RunBits(c, a), b)
    decreases a
  {
    hide X, BitStep, Bit;
    if a == [] {
      assert a + b == b;
    } else {
      assert (a + b)[0] == a[0] && (a + b)[1..] == a[1..] + b;
      RunAppend(BitStep(X(c, Bit(a[0]))), a[1..], b);
    }
  }

  lemma {:induction false} RunInjective(c: bv16, d: bv16, bits: seq<bool>)
    ensures RunBits(c, bits) == RunBits(d, bits) <==> c == d
    decreases bits
  {
    hide X, BitStep, Bit;
    if bits != [] {
      var b := Bit(bits[0]);
      RunInjective(BitStep(X(c, b)), BitStep(X(d, b)), bits[1..]);
      if BitStep(X(c, b)) == BitStep(X(d, b)) {
        assert Steps(X(c, b), 1) == Steps(X(d, b), 1);
        StepsInjective(X(c, b), X(d, b), 1);
        XorCancel(c, d, b);
      }
    }
  }

  lemma XorCancel(c: bv16, d: bv16, b: bv16)
    requires X(c, b) == X(d, b)
    ensures c == d
  {
    hide X;
    XorAssoc(c, b, b);
    XorAssoc(d, b, b);
    XorZero(b, b);
    XorNothing(c);
    XorNothing(d);
  }

  // ----- a message is its bits -----

  lemma ConsSplit(w: bv16)
    ensures Cons(Odd(w), w >> 1) == w
  {
  }

  lemma ShiftLimit(w: bv16, n: nat)
    requires 0 < n <= 15 && w < Limit(n)
    ensures w >> 1 < Limit(n - 1)
  {
  }

  lemma {:induction false} PackBits(w: bv16, n: nat)
    requires n <= 15 && w < Limit(n)
    ensures Pack(BitsOf(w, n)) == w
    decreases n
  {
    hide Cons, Odd;
    if n > 0 {
      ConsSplit(w);
      ShiftLimit(w, n);
      hide Limit;
      PackBits(w >> 1, n - 1);
      assert BitsOf(w, n)[1..] == BitsOf(w >> 1, n - 1);
    }
  }

  lemma WideLimit(b: bv8)
    ensures Wide(b) < Limit(8)
  {
  }

  /** The byte-wise register is the bit-wise one. */
  lemma {:induction false} RegisterIsBits(c: bv16, message: seq<bv8>)
    ensures Register(c, message) == RunBits(c, Bits(message))
    decreases message
  {
    hide Wide, X, Steps, Limit;
    if message != [] {
      var w := Wide(message[0]);
      WideLimit(message[0]);
      PackBits(w, 8);
      RunPack(c, BitsOf(w, 8));
      RunAppend(c, BitsOf(w, 8), Bits(message[1..]));
      RegisterIsBits(Steps(X(c, w), 8), message[1..]);
      hide RunBits, BitsOf, Pack;
    }
  }

  /** Every burst of up to sixteen consecutive bits changes the checksum. */
  lemma BurstDetected(a: seq<bv8>, b: seq<bv8>, prefix: seq<bool>, u: seq<bool>, v: seq<bool>, suffix: seq<bool>)
    requires Bits(a) == prefix + u + suffix && Bits(b) == prefix + v + suffix
    requires |u| == |v| <= 16
    ensures Crc(a) == Crc(b) <==> u == v
  {
    hide Register, RunBits, Steps, Pack, X, Bits;
    RegisterIsBits(INIT, a);
    RegisterIsBits(INIT, b);
    var c := RunBits(INIT, prefix);
    RunAppend(INIT, prefix + u, suffix);
    RunAppend(INIT, prefix, u);
    RunAppend(INIT, prefix + v, suffix);
    RunAppend(INIT, prefix, v);
    RunInjective(RunBits(c, u), RunBits(c, v), suffix);
    RunPack(c, u);
    RunPack(c, v);
    StepsInjective(X(c, Pack(u)), X(c, Pack(v)), |u|);
    PackInjective(u, v);
    if X(c, Pack(u)) == X(c, Pack(v)) {
      XorSwap(c, Pack(u));
      XorSwap(c, Pack(v));
      XorCancel(Pack(u), Pack(v), c);
    }
  }

  lemma {:induction false} BitsAppend(a: seq<bv8>, b: seq<bv8>)
    ensures Bits(a + b) == Bits(a) + Bits(b)
    decreases a
  {
    hide BitsOf, Wide;
    if a == [] {
      assert a + b == b;
    } else {
      assert (a + b)[0] == a[0] && (a + b)[1..] == a[1..] + b;
      BitsAppend(a[1..], b);
    }
  }

  lemma {:induction false} BitsInjective(a: seq<bv8>, b: seq<bv8>)
    requires Bits(a) == Bits(b)
    ensures a == b
    decreases a
  {
    hide Bits, BitsOf, Wide;
    if a == [] {
      NoBits(b);
    } else {
      FirstByte(a, b);
      ByteInjective(a[0], b[0]);
      BitsInjective(a[1..], b[1..]);
      assert a == [a[0]] + a[1..] && b == [b[0]] + b[1..];
    }
  }

  lemma NoBits(b: seq<bv8>)
    requires Bits(b) == Bits([])
    ensures b == []
  {
    hide BitsOf, Wide;
  }

  lemma FirstByte(a: seq<bv8>, b: seq<bv8>)
    requires a != [] && Bits(a) == Bits(b)
    ensures b != [] && BitsOf(Wide(a[0]), 8) == BitsOf(Wide(b[0]), 8) && Bits(a[1..]) == Bits(b[1..])
  {
    hide BitsOf, Wide;
    assert b != [];
    var x, y := BitsOf(Wide(a[0]), 8), BitsOf(Wide(b[0]), 8);
    assert x == Bits(a)[..8] == y;
    assert Bits(a[1..]) == Bits(a)[8..] == Bits(b[1..]);
  }

  lemma ByteInjective(x: bv8, y: bv8)
    requires BitsOf(Wide(x), 8) == BitsOf(Wide(y), 8)
    ensures x == y
  {
    hide BitsOf, Limit;
    WideLimit(x);
    WideLimit(y);
    WordInjective(Wide(x), Wide(y), 8);
  }

  lemma WordInjective(v: bv16, w: bv16, n: nat)
    requires n <= 15 && v < Limit(n) && w < Limit(n) && BitsOf(v, n) == BitsOf(w, n)
    ensures v == w
  {
    hide BitsOf, Limit, Pack;
    PackBits(v, n);
    PackBits(w, n);
  }

  /** Two messages that differ only inside two adjacent bytes have different checksums. */
  lemma TwoBytesDetected(prefix: seq<bv8>, u: seq<bv8>, v: seq<bv8>, suffix: seq<bv8>)
    requires |u| == |v| <= 2
    ensures Crc(prefix + u + suffix) == Crc(prefix + v + suffix) <==> u == v
  {
    hide Crc, Bits;
    BitsAppend(prefix + u, suffix);
    BitsAppend(prefix, u);
    BitsAppend(prefix + v, suffix);
    BitsAppend(prefix, v);
    BurstDetected(prefix + u + suffix, prefix + v + suffix, Bits(prefix), Bits(u), Bits(v), Bits(suffix));
    if Bits(u) == Bits(v) {
      BitsInjective(u, v);
    }
  }

  lemma {:induction false} RegisterAppend(c: bv16, a: seq<bv8>, b: seq<bv8>)
    ensures Register(c, a + b) == Register(Register(c, a), b)
    decreases a
  {
    hide X, Wide, Steps;
    if a == [] {
      assert a + b == b;
    } else {
      assert (a + b)[0] == a[0] && (a + b)[1..] == a[1..] + b;
      RegisterAppend(Steps(X(c, Wide(a[0])), 8), a[1..], b);
    }
  }

  lemma RegisterThree(c: bv16, x: bv8, y: bv8, z: bv8)
    ensures Register(c, [x, y, z]) == Steps(X(Steps(X(Steps(X(c, Wide(x)), 8), Wide(y)), 8), Wide(z)), 8)
  {
    hide X, Wide, Steps;
    RegisterTwo(Steps(X(c, Wide(x)), 8), y, z);
    assert [x, y, z][1..] == [y, z];
  }

  /** Sixteen is the exact bound: the seventeen-bit pattern of the generator is invisible, wherever it falls. */
  lemma SeventeenBitsMissed(prefix: seq<bv8>, x: bv8, y: bv8, z: bv8, suffix: seq<bv8>)
    ensures Crc(prefix + [x, y, z] + suffix) == Crc(prefix + [X8(x, 0x03), X8(y, 0x40), X8(z, 0x01)] + suffix)
  {
    hide Register, Steps, X, Wide, X8;
    var m, w := [x, y, z], [X8(x, 0x03), X8(y, 0x40), X8(z, 0x01)];
    RegisterAppend(INIT, prefix + m, suffix);
    RegisterAppend(INIT, prefix, m);
    RegisterAppend(INIT, prefix + w, suffix);
    RegisterAppend(INIT, prefix, w);
    var c := Register(INIT, prefix);
    GeneratorVanishes(c, x, y, z);
  }

  lemma WideXor(a: bv8, b: bv8)
    ensures Wide(X8(a, b)) == X(Wide(a), Wide(b))
  {
  }

  /** A difference d in the register and e in the incoming byte: the difference afterwards. */
  lemma Difference(c: bv16, d: bv16, x: bv8, e: bv8)
    ensures Steps(X(X(c, d), Wide(X8(x, e))), 8) == X(Steps(X(c, Wide(x)), 8), Steps(X(d, Wide(e)), 8))
  {
    hide Steps, X, Wide, X8;
    WideXor(x, e);
    var a, b := Wide(x), Wide(e);
    XorAssoc(c, d, X(a, b));
    XorAssoc(d, a, b);
    XorSwap(d, a);
    XorAssoc(a, d, b);
    XorAssoc(c, a, X(d, b));
    StepsLinear(X(c, a), X(d, b), 8);
  }

  lemma GeneratorSteps()
    ensures Eight(X(0, Wide(0x03))) == 0x0140 && Eight(X(0x0140, Wide(0x40))) == 0x0001
    ensures X(0x0001, Wide(0x01)) == 0
  {
  }

  lemma GeneratorVanishes(c: bv16, x: bv8, y: bv8, z: bv8)
    ensures Register(c, [x, y, z]) == Register(c, [X8(x, 0x03), X8(y, 0x40), X8(z, 0x01)])
  {
    hide Register, Steps, X, Wide, X8, Eight;
    RegisterThree(c, x, y, z);
    RegisterThree(c, X8(x, 0x03), X8(y, 0x40), X8(z, 0x01));
    GeneratorSteps();
    EightSteps(X(0, Wide(0x03)));
    EightSteps(X(0x0140, Wide(0x40)));
    var s := Steps(X(c, Wide(x)), 8);
    var t := Steps(X(s, Wide(y)), 8);
    XorNothing(c);
    Difference(c, 0, x, 0x03);
    Difference(s, 0x0140, y, 0x40);
    Difference(t, 0x0001, z, 0x01);
    StepsZero(0, 8);
    XorNothing(Steps(X(t, Wide(z)), 8));
  }

  // ----- the checksum of a frame that carries its checksum -----

  lemma RegisterTwo(c: bv16, x: bv8, y: bv8)
    ensures Register(c, [x, y]) == Steps(X(Steps(X(c, Wide(x)), 8), Wide(y)), 8)
  {
    hide X, Wide, Steps;
    var d := Steps(X(c, Wide(x)), 8);
    assert [x, y][1..] == [y];
    assert Register(c, [x, y]) == Register(d, [y]);
    assert [y][1..] == [];
    assert Register(d, [y]) == Register(Steps(X(d, Wide(y)), 8), []);
  }

  lemma DigitSteps()
    ensures Eight(X(0xFFFF, Wide(0x31))) == 0x947E
    ensures Eight(X(0x947E, Wide(0x32))) == 0xF595
    ensures Eight(X(0xF595, Wide(0x33))) == 0x7A75
    ensures Eight(X(0x7A75, Wide(0x34))) == 0x30BA
    ensures Eight(X(0x30BA, Wide(0x35))) == 0xA471
    ensures Eight(X(0xA471, Wide(0x36))) == 0x32E4
    ensures Eight(X(0x32E4, Wide(0x37))) == 0x9D73
    ensures Eight(X(0x9D73, Wide(0x38))) == 0x37DD
    ensures Eight(X(0x37DD, Wide(0x39))) == 0x4B37
  {}

  lemma RegisterTail(m: seq<bv8>, i: nat, c: bv16, d: bv16)
    requires i < |m| && Eight(X(c, Wide(m[i]))) == d
    ensures Register(c, m[i..]) == Register(d, m[i + 1..])
  {
    hide X, Wide, Eight, Steps;
    EightSteps(X(c, Wide(m[i])));
    assert m[i..][0] == m[i] && m[i..][1..] == m[i + 1..];
  }

  lemma RegisterEnd(c: bv16, m: seq<bv8>)
    requires m == []
    ensures Register(c, m) == c
  {}

  /** The check value of this CRC in the catalogues: that of the nine digits "123456789". */
  lemma CheckValue(m: seq<bv8>)
    requires m == [0x31, 0x32, 0x33, 0x34, 0x35, 0x36, 0x37, 0x38, 0x39]
    ensures Crc(m) == 0x4B37
  {
    hide Register, X, Wide, Eight;
    DigitSteps();
    assert m[0..] == m;
    RegisterTail(m, 0, 0xFFFF, 0x947E);
    RegisterTail(m, 1, 0x947E, 0xF595);
    RegisterTail(m, 2, 0xF595, 0x7A75);
    RegisterTail(m, 3, 0x7A75, 0x30BA);
    RegisterTail(m, 4, 0x30BA, 0xA471);
    RegisterTail(m, 5, 0xA471, 0x32E4);
    RegisterTail(m, 6, 0x32E4, 0x9D73);
    RegisterTail(m, 7, 0x9D73, 0x37DD);
    RegisterTail(m, 8, 0x37DD, 0x4B37);
    RegisterEnd(0x4B37, m[9..]);
  }

  /** The whole frame has checksum zero exactly when its last two bytes are the register,
      low byte first: the order in which send_rs_frame writes `fcs >> 8` and `fcs & 0xff`. */
  lemma ResidueIff(message: seq<bv8>, x: bv8, y: bv8)
    ensures Crc(message + [x, y]) == 0 <==> Result(x, y) == Swap(Crc(message))
  {
    hide Register, Steps, X, Wide, High, Swap, Result;
    var c := Crc(message);
    RegisterAppend(INIT, message, [x, y]);
    RegisterTwo(c, x, y);
    AbsorbHigh(X(c, Wide(x)), y);
    StepsPlus(X(X(c, Wide(x)), High(y)), 8, 8);
    StepsZero(X(X(c, Wide(x)), High(y)), 16);
    XorAssoc(c, Wide(x), High(y));
    XorZero(c, Join(x, y));
    JoinResult(x, y);
    SwapTwice(c);
    SwapTwice(Join(x, y));
  }

  lemma SwapTwice(a: bv16)
    ensures Swap(Swap(a)) == a
  {
  }

  function Upper(fcs: bv16): bv8 { (fcs >> 8) as bv8 }

  function Lower(fcs: bv16): bv8 { (fcs & 0xFF) as bv8 }

  lemma ResultHalves(fcs: bv16)
    ensures Result(Upper(fcs), Lower(fcs)) == fcs
  {
  }
}
