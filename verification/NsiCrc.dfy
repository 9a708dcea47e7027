// The N64 controller-pak checksum: a table indexed by bit position
// (main/wired/nsi.c) against polynomial division over GF(2).
module NsiCrc {
  import opened Bytes

  // x^8 + x^7 + x^2 + 1, without its leading term
  const POLY: byte := 0x85

  // Addition of polynomials over GF(2).
  function Xor(a: byte, b: byte): byte
  {
    a ^ b
  }

  // Multiplication by x modulo the polynomial: `0 - (c >> 7)` is 0xFF exactly when
  // the bit shifted out is set.
  function Step(c: byte): byte
  {
    (c << 1) ^ ((0 - (c >> 7)) & POLY)
  }

  function Times(n: nat, c: byte): byte
  {
    if n == 0 then c else Step(Times(n - 1, c))
  }

  function BitVal(b: bool): byte { if b then 1 else 0 }

  // Long division: the register after the first n bits have been shifted in.
  function Register(bits: seq<bool>, n: nat): byte
    requires n <= |bits|
  {
    if n == 0 then 0 else Xor(Step(Register(bits, n - 1)), BitVal(bits[n - 1]))
  }

  function Zeros(n: nat): (z: seq<bool>)
    ensures |z| == n
  {
    seq(n, _ => false)
  }

  // The CRC-8 of a message: the remainder of message * x^8.
  function Remainder(bits: seq<bool>): byte
  {
    Register(bits + Zeros(8), |bits| + 8)
  }

  // The position table, sixteen entries a row.
  function TableRow(r: nat): (row: seq<byte>)
    requires r < 16
    ensures |row| == 16
  {
    match r
    case 0 => [0x8F, 0x85, 0x80, 0x40, 0x20, 0x10, 0x08, 0x04, 0x02, 0x01, 0xC2, 0x61, 0xF2, 0x79, 0xFE, 0x7F]
    case 1 => [0xFD, 0xBC, 0x5E, 0x2F, 0xD5, 0xA8, 0x54, 0x2A, 0x15, 0xC8, 0x64, 0x32, 0x19, 0xCE, 0x67, 0xF1]
    case 2 => [0xBA, 0x5D, 0xEC, 0x76, 0x3B, 0xDF, 0xAD, 0x94, 0x4A, 0x25, 0xD0, 0x68, 0x34, 0x1A, 0x0D, 0xC4]
    case 3 => [0x62, 0x31, 0xDA, 0x6D, 0xF4, 0x7A, 0x3D, 0xDC, 0x6E, 0x37, 0xD9, 0xAE, 0x57, 0xE9, 0xB6, 0x5B]
    case 4 => [0xEF, 0xB5, 0x98, 0x4C, 0x26, 0x13, 0xCB, 0xA7, 0x91, 0x8A, 0x45, 0xE0, 0x70, 0x38, 0x1C, 0x0E]
    case 5 => [0x07, 0xC1, 0xA2, 0x51, 0xEA, 0x75, 0xF8, 0x7C, 0x3E, 0x1F, 0xCD, 0xA4, 0x52, 0x29, 0xD6, 0x6B]
    case 6 => [0xF7, 0xB9, 0x9E, 0x4F, 0xE5, 0xB0, 0x58, 0x2C, 0x16, 0x0B, 0xC7, 0xA1, 0x92, 0x49, 0xE6, 0x73]
    case 7 => [0xFB, 0xBF, 0x9D, 0x8C, 0x46, 0x23, 0xD3, 0xAB, 0x97, 0x89, 0x86, 0x43, 0xE3, 0xB3, 0x9B, 0x8F]
    case 8 => [0x85, 0x80, 0x40, 0x20, 0x10, 0x08, 0x04, 0x02, 0x01, 0xC2, 0x61, 0xF2, 0x79, 0xFE, 0x7F, 0xFD]
    case 9 => [0xBC, 0x5E, 0x2F, 0xD5, 0xA8, 0x54, 0x2A, 0x15, 0xC8, 0x64, 0x32, 0x19, 0xCE, 0x67, 0xF1, 0xBA]
    case 10 => [0x5D, 0xEC, 0x76, 0x3B, 0xDF, 0xAD, 0x94, 0x4A, 0x25, 0xD0, 0x68, 0x34, 0x1A, 0x0D, 0xC4, 0x62]
    case 11 => [0x31, 0xDA, 0x6D, 0xF4, 0x7A, 0x3D, 0xDC, 0x6E, 0x37, 0xD9, 0xAE, 0x57, 0xE9, 0xB6, 0x5B, 0xEF]
    case 12 => [0xB5, 0x98, 0x4C, 0x26, 0x13, 0xCB, 0xA7, 0x91, 0x8A, 0x45, 0xE0, 0x70, 0x38, 0x1C, 0x0E, 0x07]
    case 13 => [0xC1, 0xA2, 0x51, 0xEA, 0x75, 0xF8, 0x7C, 0x3E, 0x1F, 0xCD, 0xA4, 0x52, 0x29, 0xD6, 0x6B, 0xF7]
    case 14 => [0xB9, 0x9E, 0x4F, 0xE5, 0xB0, 0x58, 0x2C, 0x16, 0x0B, 0xC7, 0xA1, 0x92, 0x49, 0xE6, 0x73, 0xFB]
    case 15 => [0xBF, 0x9D, 0x8C, 0x46, 0x23, 0xD3, 0xAB, 0x97, 0x89, 0x86, 0x43, 0xE3, 0xB3, 0x9B, 0x8F, 0x85]
  }

  function Table(i: nat): byte
    requires i < 256
  {
    TableRow(i / 16)[i % 16]
  }

  // What the encoder and the decoder XOR together: one entry a set bit.
  function TableSum(bits: seq<bool>, n: nat): byte
    requires n <= |bits| && n <= 256
  {
    if n == 0 then 0
    else Xor(TableSum(bits, n - 1), if bits[n - 1] then Table(n - 1) else 0)
  }

  lemma TimesAdd(m: nat, n: nat, c: byte)
    ensures Times(m, Times(n, c)) == Times(m + n, c)
  {
  }

  lemma StepXor(a: byte, b: byte)
    ensures Step(Xor(a, b)) == Xor(Step(a), Step(b))
  {
  }

  lemma {:induction false} TimesXor(n: nat, a: byte, b: byte)
    ensures Times(n, Xor(a, b)) == Xor(Times(n, a), Times(n, b))
  {
    hide Step, Xor;
    if n > 0 {
      TimesXor(n - 1, a, b);
      StepXor(Times(n - 1, a), Times(n - 1, b));
    }
  }

  lemma {:induction false} TimesInjective(n: nat, a: byte, b: byte)
    requires Times(n, a) == Times(n, b)
    ensures a == b
  {
    if n > 0 {
      TimesInjective(n - 1, a, b);
    }
  }

  // Each entry of a row is x times the entry after it.
  predicate RowChain(row: seq<byte>)
    requires |row| == 16
  {
    && row[0] == Step(row[1]) && row[1] == Step(row[2]) && row[2] == Step(row[3]) && row[3] == Step(row[4])
    && row[4] == Step(row[5]) && row[5] == Step(row[6]) && row[6] == Step(row[7]) && row[7] == Step(row[8])
    && row[8] == Step(row[9]) && row[9] == Step(row[10]) && row[10] == Step(row[11]) && row[11] == Step(row[12])
    && row[12] == Step(row[13]) && row[13] == Step(row[14]) && row[14] == Step(row[15])
  }

  lemma RowsChain(r: nat)
    requires r < 16
    ensures RowChain(TableRow(r))
  {
    hide *;
    if r < 2 { RowsChain0(r); } else if r < 4 { RowsChain2(r); }
    else if r < 6 { RowsChain4(r); } else if r < 8 { RowsChain6(r); }
    else if r < 10 { RowsChain8(r); } else if r < 12 { RowsChain10(r); }
    else if r < 14 { RowsChain12(r); } else { RowsChain14(r); }
  }

  lemma RowsChain0(r: nat)
    requires 0 <= r < 2
    ensures RowChain(TableRow(r))
  {
    match r
    case 0 => assert RowChain(TableRow(0));
    case 1 => assert RowChain(TableRow(1));
  }

  lemma RowsChain2(r: nat)
    requires 2 <= r < 4
    ensures RowChain(TableRow(r))
  {
    match r
    case 2 => assert RowChain(TableRow(2));
    case 3 => assert RowChain(TableRow(3));
  }

  lemma RowsChain4(r: nat)
    requires 4 <= r < 6
    ensures RowChain(TableRow(r))
  {
    match r
    case 4 => assert RowChain(TableRow(4));
    case 5 => assert RowChain(TableRow(5));
  }

  lemma RowsChain6(r: nat)
    requires 6 <= r < 8
    ensures RowChain(TableRow(r))
  {
    match r
    case 6 => assert RowChain(TableRow(6));
    case 7 => assert RowChain(TableRow(7));
  }

  lemma RowsChain8(r: nat)
    requires 8 <= r < 10
    ensures RowChain(TableRow(r))
  {
    match r
    case 8 => assert RowChain(TableRow(8));
    case 9 => assert RowChain(TableRow(9));
  }

  lemma RowsChain10(r: nat)
    requires 10 <= r < 12
    ensures RowChain(TableRow(r))
  {
    match r
    case 10 => assert RowChain(TableRow(10));
    case 11 => assert RowChain(TableRow(11));
  }

  lemma RowsChain12(r: nat)
    requires 12 <= r < 14
    ensures RowChain(TableRow(r))
  {
    match r
    case 12 => assert RowChain(TableRow(12));
    case 13 => assert RowChain(TableRow(13));
  }

  lemma RowsChain14(r: nat)
    requires 14 <= r < 16
    ensures RowChain(TableRow(r))
  {
    match r
    case 14 => assert RowChain(TableRow(14));
    case 15 => assert RowChain(TableRow(15));
  }

  lemma RowStep(row: seq<byte>, k: nat)
    requires |row| == 16 && k < 15 && RowChain(row)
    ensures row[k] == Step(row[k + 1])
  {
    hide Step;
    if k < 8 {
      assert k in {0, 1, 2, 3, 4, 5, 6, 7};
    }
  }

  lemma RowLink(r: nat)
    requires r < 15
    ensures TableRow(r)[15] == Step(TableRow(r + 1)[0])
  {
    match r
    case 0 => assert TableRow(0)[15] == Step(TableRow(1)[0]);
    case 1 => assert TableRow(1)[15] == Step(TableRow(2)[0]);
    case 2 => assert TableRow(2)[15] == Step(TableRow(3)[0]);
    case 3 => assert TableRow(3)[15] == Step(TableRow(4)[0]);
    case 4 => assert TableRow(4)[15] == Step(TableRow(5)[0]);
    case 5 => assert TableRow(5)[15] == Step(TableRow(6)[0]);
    case 6 => assert TableRow(6)[15] == Step(TableRow(7)[0]);
    case 7 => assert TableRow(7)[15] == Step(TableRow(8)[0]);
    case 8 => assert TableRow(8)[15] == Step(TableRow(9)[0]);
    case 9 => assert TableRow(9)[15] == Step(TableRow(10)[0]);
    case 10 => assert TableRow(10)[15] == Step(TableRow(11)[0]);
    case 11 => assert TableRow(11)[15] == Step(TableRow(12)[0]);
    case 12 => assert TableRow(12)[15] == Step(TableRow(13)[0]);
    case 13 => assert TableRow(13)[15] == Step(TableRow(14)[0]);
    case 14 => assert TableRow(14)[15] == Step(TableRow(15)[0]);
  }

  lemma TableStep(i: nat)
    requires i < 255
    ensures Table(i) == Step(Table(i + 1))
  {
    hide Step, TableRow, RowChain;
    var r, k := i / 16, i % 16;
    RowsChain(r);
    if k < 15 {
      assert (i + 1) / 16 == r && (i + 1) % 16 == k + 1;
      RowStep(TableRow(r), k);
    } else {
      assert (i + 1) / 16 == r + 1 && (i + 1) % 16 == 0;
      RowLink(r);
    }
  }

  lemma LastEntry()
    ensures Table(255) == Times(8, 1)
  {
    assert Table(255) == TableRow(15)[15] == 0x85;
    assert Times(4, 1) == 0x10;
  }

  // Entry i is x^(263 - i) modulo the polynomial.
  lemma {:induction false} TableIsPower(i: nat)
    requires i < 256
    ensures Table(i) == Times(263 - i, 1)
    decreases 255 - i
  {
    hide Step, Table;
    if i == 255 {
      LastEntry();
    } else {
      TableIsPower(i + 1);
      TableStep(i);
    }
  }

  // After n bits the table sum is the division register moved to the end of a 256-bit block.
  lemma {:induction false} TableSumIsRegister(bits: seq<bool>, n: nat)
    requires n <= |bits| && n <= 256
    ensures TableSum(bits, n) == Times(264 - n, Register(bits, n))
  {
    hide Step, TableRow, Table, Xor;
    if n == 0 {
      TimesZero(264);
    } else {
      TableSumIsRegister(bits, n - 1);
      TableIsPower(n - 1);
      ShiftIn(264 - n, Register(bits, n - 1), bits[n - 1]);
    }
  }

  lemma ShiftIn(m: nat, prev: byte, bit: bool)
    ensures Times(m, Xor(Step(prev), BitVal(bit))) == Xor(Times(m + 1, prev), if bit then Times(m, 1) else 0)
  {
    TimesXor(m, Step(prev), BitVal(bit));
    TimesStep(m, prev);
    TimesZero(m);
  }

  lemma {:induction false} TimesStep(m: nat, c: byte)
    ensures Times(m, Step(c)) == Times(m + 1, c)
  {
    if m > 0 {
      TimesStep(m - 1, c);
    }
  }

  lemma {:induction false} TimesZero(n: nat)
    ensures Times(n, 0) == 0
  {
    if n > 0 {
      TimesZero(n - 1);
    }
  }

  lemma {:induction false} RegisterPrefix(bits: seq<bool>, tail: seq<bool>, n: nat)
    requires n <= |bits|
    ensures Register(bits + tail, n) == Register(bits, n)
  {
    if n > 0 {
      RegisterPrefix(bits, tail, n - 1);
    }
  }

  lemma {:induction false} RegisterZeros(bits: seq<bool>, m: nat, n: nat)
    requires n <= m
    ensures Register(bits + Zeros(m), |bits| + n) == Times(n, Register(bits, |bits|))
  {
    if n == 0 {
      RegisterPrefix(bits, Zeros(m), |bits|);
    } else {
      RegisterZeros(bits, m, n - 1);
    }
  }

  // For a full 32-byte payload the table sum is the CRC-8 of the payload.
  lemma TableSumIsRemainder(bits: seq<bool>)
    requires |bits| == 256
    ensures TableSum(bits, 256) == Remainder(bits)
  {
    TableSumIsRegister(bits, 256);
    RegisterZeros(bits, 8, 8);
  }

  // ... and for a shorter one, the CRC-8 of the payload padded with zero bits to a full block.
  lemma ShortTableSum(bits: seq<bool>)
    requires |bits| <= 256
    ensures TableSum(bits, |bits|) == Remainder(bits + Zeros(256 - |bits|))
  {
    var pad := Zeros(256 - |bits|);
    TableSumIsRegister(bits, |bits|);
    RegisterZeros(bits, 256 - |bits|, 256 - |bits|);
    RegisterZeros(bits + pad, 8, 8);
    TimesAdd(8, 256 - |bits|, Register(bits, |bits|));
  }

  // Error detection ---------------------------------------------------------

  lemma {:induction false} RegisterSplit(a: seq<bool>, b: seq<bool>, n: nat)
    requires n <= |b|
    ensures Register(a + b, |a| + n) == Xor(Times(n, Register(a, |a|)), Register(b, n))
  {
    hide Step, Xor;
    if n == 0 {
      RegisterPrefix(a, b, |a|);
      XorZero(Register(a, |a|));
    } else {
      RegisterSplit(a, b, n - 1);
      assert (a + b)[|a| + n - 1] == b[n - 1];
      SplitStep(Register(a + b, |a| + n - 1), Times(n - 1, Register(a, |a|)), Register(b, n - 1), BitVal(b[n - 1]));
    }
  }

  lemma SplitStep(r: byte, a: byte, b: byte, c: byte)
    requires r == Xor(a, b)
    ensures Xor(Step(r), c) == Xor(Step(a), Xor(Step(b), c))
  {
  }

  // Up to eight bits the register just holds the bits.
  lemma {:induction false} ShortRegisterInjective(v: seq<bool>, w: seq<bool>, n: nat)
    requires n <= |v| && n <= |w| && n <= 8
    requires Register(v, n) == Register(w, n)
    ensures v[..n] == w[..n]
  {
    hide Step, Limit, Xor, BitVal;
    if n > 0 {
      RegisterSmall(v, n - 1);
      RegisterSmall(w, n - 1);
      SmallStep(Register(v, n - 1), Register(w, n - 1), v[n - 1], w[n - 1], n - 1);
      ShortRegisterInjective(v, w, n - 1);
      assert v[..n] == v[..n - 1] + [v[n - 1]] && w[..n] == w[..n - 1] + [w[n - 1]];
    }
  }

  function Limit(n: nat): byte
    requires n < 8
  {
    match n
    case 0 => 0x01
    case 1 => 0x02
    case 2 => 0x04
    case 3 => 0x08
    case 4 => 0x10
    case 5 => 0x20
    case 6 => 0x40
    case 7 => 0x80
  }

  lemma {:induction false} RegisterSmall(v: seq<bool>, n: nat)
    requires n <= |v| && n < 8
    ensures Register(v, n) < Limit(n)
  {
    if n > 0 {
      RegisterSmall(v, n - 1);
    }
  }

  lemma SmallStep(a: byte, b: byte, p: bool, q: bool, n: nat)
    requires n < 8 && a < Limit(n) && b < Limit(n)
    requires Xor(Step(a), BitVal(p)) == Xor(Step(b), BitVal(q))
    ensures a == b && p == q
  {
  }

  // Payloads that differ only inside one window of at most eight bits have different CRCs.
  lemma BurstDetected(pre: seq<bool>, v: seq<bool>, w: seq<bool>, post: seq<bool>)
    requires |v| == |w| <= 8 && v != w
    ensures Remainder(pre + v + post) != Remainder(pre + w + post)
  {
    hide *;
    if Remainder(pre + v + post) == Remainder(pre + w + post) {
      SameRegister(pre, v, w, post);
      SameWindow(pre, v, w);
      ShortRegisterInjective(v, w, |v|);
    }
  }

  lemma SameWindow(pre: seq<bool>, v: seq<bool>, w: seq<bool>)
    requires |v| == |w| && Register(pre + v, |pre + v|) == Register(pre + w, |pre + w|)
    ensures Register(v, |v|) == Register(w, |w|)
  {
    hide *;
    RegisterSplit(pre, v, |v|);
    RegisterSplit(pre, w, |w|);
    CancelLeft(Register(v, |v|), Register(w, |w|), Times(|v|, Register(pre, |pre|)));
  }

  lemma SameRegister(pre: seq<bool>, v: seq<bool>, w: seq<bool>, post: seq<bool>)
    requires |v| == |w| && Remainder(pre + v + post) == Remainder(pre + w + post)
    ensures Register(pre + v, |pre + v|) == Register(pre + w, |pre + w|)
  {
    RemainderSplit(pre + v, post);
    RemainderSplit(pre + w, post);
    Peel(|post| + 8, Register(pre + v, |pre + v|), Register(pre + w, |pre + w|), Register(post + Zeros(8), |post| + 8));
  }

  lemma Peel(m: nat, a: byte, b: byte, t: byte)
    requires Xor(Times(m, a), t) == Xor(Times(m, b), t)
    ensures a == b
  {
    hide *;
    CancelRight(Times(m, a), Times(m, b), t);
    TimesInjective(m, a, b);
  }

  lemma RemainderIs(bits: seq<bool>)
    ensures Remainder(bits) == Register(bits + Zeros(8), |bits| + 8)
  {
  }

  lemma RemainderSplit(a: seq<bool>, b: seq<bool>)
    ensures Remainder(a + b) == Xor(Times(|b| + 8, Register(a, |a|)), Register(b + Zeros(8), |b| + 8))
  {
    hide *;
    RemainderIs(a + b);
    assert (a + b) + Zeros(8) == a + (b + Zeros(8));
    RegisterSplit(a, b + Zeros(8), |b| + 8);
  }

  lemma CancelRight(a: byte, b: byte, c: byte)
    requires Xor(a, c) == Xor(b, c)
    ensures a == b
  {
  }

  lemma CancelLeft(a: byte, b: byte, c: byte)
    requires Xor(c, a) == Xor(c, b)
    ensures a == b
  {
  }

  // x has order 127: no entry between 136 and the end of the table is 1 again.
  lemma NoEarlierOne(i: nat)
    requires 136 < i < 256
    ensures Table(i) != 1
  {
    hide TableRow;
    if i < 144 {
      OneInRow8(i % 16);
    } else {
      NoOneInRow(i / 16);
    }
  }

  lemma OneInRow8(k: nat)
    requires 8 < k < 16
    ensures TableRow(8)[k] != 1
  {
    assert 1 !in TableRow(8)[9..];
    assert TableRow(8)[k] == TableRow(8)[9..][k - 9];
  }

  lemma NoOneInRow(r: nat)
    requires 9 <= r < 16
    ensures 1 !in TableRow(r)
  {
    hide *;
    if r < 13 { NoOneInRow9(r); } else { NoOneInRow13(r); }
  }

  lemma NoOneInRow9(r: nat)
    requires 9 <= r < 13
    ensures 1 !in TableRow(r)
  {
  }

  lemma NoOneInRow13(r: nat)
    requires 13 <= r < 16
    ensures 1 !in TableRow(r)
  {
  }

  lemma PowerIsOne(d: nat)
    requires d < 256
    ensures Times(d, 1) == 1 <==> d % 127 == 0
  {
    hide *;
    FullPeriod();
    if d >= 127 {
      TimesAdd(d - 127, 127, 1);
      PowerIsOne(d - 127);
    } else if d >= 8 {
      TableIsPower(263 - d);
      NoEarlierOne(263 - d);
    } else {
      SmallPowers(d);
    }
  }

  lemma FullPeriod()
    ensures Times(127, 1) == 1
  {
    TableIsPower(136);
    assert TableRow(8)[8] == 1;
  }

  lemma SmallPowers(d: nat)
    requires d < 8
    ensures Times(d, 1) == 1 <==> d == 0
  {
    match d
    case 0 =>
    case 1 => assert Times(1, 1) == 0x02;
    case 2 => assert Times(2, 1) == 0x04;
    case 3 => assert Times(3, 1) == 0x08;
    case 4 => assert Times(4, 1) == 0x10;
    case 5 => assert Times(5, 1) == 0x20;
    case 6 => assert Times(6, 1) == 0x40;
    case 7 => assert Times(7, 1) == 0x80;
  }

  lemma EqualEntries(i: nat, j: nat)
    requires i < j < 256
    ensures Table(i) == Table(j) <==> (j - i) % 127 == 0
  {
    hide *;
    TableIsPower(i);
    TableIsPower(j);
    TimesAdd(263 - j, j - i, 1);
    PowerIsOne(j - i);
    if Table(i) == Table(j) {
      TimesInjective(263 - j, Times(j - i, 1), 1);
    }
  }

  lemma {:induction false} FlipBit(bits: seq<bool>, i: nat, n: nat)
    requires i < |bits| && n <= |bits| && n <= 256
    ensures TableSum(bits[i := !bits[i]], n) == Xor(TableSum(bits, n), if i < n then Table(i) else 0)
  {
    hide Table, Step;
    if n > 0 {
      FlipBit(bits, i, n - 1);
    }
  }

  // Two flipped bits go unnoticed exactly when they are a multiple of 127 positions apart.
  lemma TwoBitErrors(bits: seq<bool>, i: nat, j: nat)
    requires |bits| == 256 && i < j < 256
    ensures TableSum(bits[i := !bits[i]][j := !bits[j]], 256) == TableSum(bits, 256) <==> (j - i) % 127 == 0
  {
    hide *;
    var one := bits[i := !bits[i]];
    FlipBit(bits, i, 256);
    FlipBit(one, j, 256);
    EqualEntries(i, j);
    TwoXors(TableSum(bits, 256), Table(i), Table(j));
  }

  lemma TwoXors(s: byte, a: byte, b: byte)
    ensures Xor(Xor(s, a), b) == s <==> a == b
  {
    hide *;
    XorAssoc(s, a, b);
    XorZero(s);
    if Xor(s, Xor(a, b)) == s {
      CancelLeft(Xor(a, b), 0, s);
    }
    XorIsZero(a, b);
  }

  lemma XorAssoc(a: byte, b: byte, c: byte)
    ensures Xor(Xor(a, b), c) == Xor(a, Xor(b, c))
  {
  }

  lemma XorZero(a: byte)
    ensures Xor(a, 0) == a
  {
  }

  lemma XorIsZero(a: byte, b: byte)
    ensures Xor(a, b) == 0 <==> a == b
  {
  }
}
