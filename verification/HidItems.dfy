// The items of a HID report descriptor, read byte by byte (main/adapter/hid_parser.c:401-625).
module HidItems {
  import opened Bytes

  const U16_MOD: nat := 0x1_0000
  const U32_MOD: nat := 0x1_0000_0000

  datatype Item =
    | Skip                                   // a collection, a unit or anything else the parser passes over
    | SetPage(page: nat)
    | AddUsage(usage: nat, filtered: bool)   // one-byte usages are filtered, wider ones are not
    | SetMin(min: int)
    | SetMax(max: int)
    | SetUsageMax(usageMax: nat)
    | SetSize(size: nat)
    | SetCount(count: nat)
    | Field(tag: nat, flags: octet)           // Input (tag 0) and Output (tag 1)
    | Feature
    | Id(id: nat)
    | Push
    | Pop

  datatype Decoded = Read(item: Item, next: nat) | Unknown

  function U8(m: seq<octet>, at: nat): nat
    requires at < |m|
  {
    m[at]
  }

  function U16(m: seq<octet>, at: nat): (r: nat)
    requires at + 2 <= |m|
    ensures r < U16_MOD
  {
    (m[at] as int) + 0x100 * (m[at + 1] as int)
  }

  function U32(m: seq<octet>, at: nat): (r: nat)
    requires at + 4 <= |m|
    ensures r < U32_MOD
  {
    U16(m, at) + U16_MOD * U16(m, at + 2)
  }

  // Two's complement.
  function Signed(v: nat, mod: nat): int
  {
    if 2 * v < mod then v else v - mod
  }

  // A signed value stored in an unsigned word.
  function Word(v: int): (r: nat)
    ensures r < U32_MOD
  {
    v % U32_MOD
  }

  // The item at `at`; a descriptor cut short is read on into whatever follows it.
  function ItemAt(m: seq<octet>, at: nat): (r: Decoded)
    requires at + 5 <= |m|
    ensures r.Read? ==> at < r.next <= at + 5
    ensures r.Read? && r.item.Field? ==> r.item.tag < 2
  {
    var t, p := m[at], at + 1;
    if t == 0x00 || t == 0x7C || t == 0xC0 then Read(Skip, p)
    else if t == 0x01 || t == 0x0D || t == 0x35 || t == 0x45 || t == 0x55 || t == 0x65 || t == 0xA1 then
      Read(Skip, p + 1)
    else if t == 0x46 || t == 0x66 then Read(Skip, p + 2)
    else if t == 0x03 || t == 0xFF then Read(Skip, p + 4)
    else if t == 0x05 then Read(SetPage(U8(m, p)), p + 1)
    else if t == 0x06 then Read(SetPage(U16(m, p)), p + 2)
    else if t == 0x07 then Read(SetPage(U32(m, p)), p + 4)
    else if t == 0x09 || t == 0x19 then Read(AddUsage(U8(m, p), true), p + 1)
    else if t == 0x0A || t == 0x1A then Read(AddUsage(U16(m, p), false), p + 2)
    else if t == 0x15 then Read(SetMin(Signed(U8(m, p), 0x100)), p + 1)
    else if t == 0x16 then Read(SetMin(Signed(U16(m, p), U16_MOD)), p + 2)
    else if t == 0x17 then Read(SetMin(Signed(U32(m, p), U32_MOD)), p + 4)
    else if t == 0x25 then Read(SetMax(Signed(U8(m, p), 0x100)), p + 1)
    else if t == 0x26 then Read(SetMax(Signed(U16(m, p), U16_MOD)), p + 2)
    else if t == 0x27 then Read(SetMax(Signed(U32(m, p), U32_MOD)), p + 4)
    else if t == 0x29 then Read(SetUsageMax(Word(Signed(U8(m, p), 0x100))), p + 1)
    else if t == 0x2A then Read(SetUsageMax(Word(Signed(U16(m, p), U16_MOD))), p + 2)
    else if t == 0x2B then Read(SetUsageMax(Word(Signed(U32(m, p), U32_MOD))), p + 4)
    else if t == 0x75 then Read(SetSize(U8(m, p)), p + 1)
    else if t == 0x95 then Read(SetCount(U8(m, p)), p + 1)
    else if t == 0x96 then Read(SetCount(U16(m, p)), p + 2)
    else if t == 0x81 then Read(Field(0, m[p]), p + 1)
    else if t == 0x91 then Read(Field(1, m[p]), p + 1)
    else if t == 0x85 then Read(Id(U8(m, p)), p + 1)
    else if t == 0xA4 then Read(Push, p)
    else if t == 0xB4 then Read(Pop, p)
    else if t == 0xB1 then Read(Feature, p + 1)
    else if t == 0xB2 then Read(Feature, p + 2)
    else Unknown
  }

  // `complete` is false when the parser gave up on an unknown marker.
  datatype Parsed = Parsed(items: seq<Item>, complete: bool)

  function Decode(m: seq<octet>, len: nat, at: nat): (r: Parsed)
    requires len + 4 <= |m|
    ensures forall i :: 0 <= i < |r.items| && r.items[i].Field? ==> r.items[i].tag < 2
    decreases if at < len then len - at else 0
  {
    if at >= len then Parsed([], true)
    else
      match ItemAt(m, at)
      case Unknown => Parsed([], false)
      case Read(item, next) =>
        var rest := Decode(m, len, next);
        Parsed([item] + rest.items, rest.complete)
  }

  // Round trip -------------------------------------------------------------------

  function B(v: int): octet { v % 0x100 }

  function Bytes2(v: int): (r: seq<octet>)
    ensures |r| == 2
  {
    [B(v), B(v / 0x100)]
  }

  function Bytes4(v: int): (r: seq<octet>)
    ensures |r| == 4
  {
    Bytes2(v) + Bytes2(v / U16_MOD)
  }

  function LittleEndian(v: int, width: nat): seq<octet>
    requires width in {0, 1, 2, 4}
  {
    if width == 0 then [] else if width == 1 then [B(v)] else if width == 2 then Bytes2(v) else Bytes4(v)
  }

  // An item as it stands in a descriptor: its tag and its data.
  datatype Code = Code(item: Item, tag: octet, data: seq<octet>)

  predicate Signable(v: int, width: nat)
  {
    (width == 1 && -0x80 <= v < 0x80) || (width == 2 && -0x8000 <= v < 0x8000)
    || (width == 4 && -0x8000_0000 <= v < 0x8000_0000)
  }

  // A word that is the two's complement of a value of this width.
  function SignedWord(v: nat): int { Signed(v, U32_MOD) }

  // The tags an item can have, each with the width of its data and what fits in it.
  predicate Form(i: Item, tag: octet, width: nat)
  {
    match i
    case Skip =>
      || (width == 0 && tag in {0x00, 0x7C, 0xC0}) || (width == 2 && tag in {0x46, 0x66})
      || (width == 1 && tag in {0x01, 0x0D, 0x35, 0x45, 0x55, 0x65, 0xA1}) || (width == 4 && tag in {0x03, 0xFF})
    case SetPage(v) =>
      || (width == 1 && tag == 0x05 && v < 0x100) || (width == 2 && tag == 0x06 && v < U16_MOD)
      || (width == 4 && tag == 0x07 && v < U32_MOD)
    case AddUsage(v, filtered) =>
      if filtered then width == 1 && tag in {0x09, 0x19} && v < 0x100
      else width == 2 && tag in {0x0A, 0x1A} && v < U16_MOD
    case SetMin(v) => Signable(v, width) && tag == (if width == 1 then 0x15 else if width == 2 then 0x16 else 0x17)
    case SetMax(v) => Signable(v, width) && tag == (if width == 1 then 0x25 else if width == 2 then 0x26 else 0x27)
    case SetUsageMax(v) =>
      && v < U32_MOD && Signable(SignedWord(v), width)
      && tag == (if width == 1 then 0x29 else if width == 2 then 0x2A else 0x2B)
    case SetSize(v) => width == 1 && tag == 0x75 && v < 0x100
    case SetCount(v) => (width == 1 && tag == 0x95 && v < 0x100) || (width == 2 && tag == 0x96 && v < U16_MOD)
    case Field(t, _) => width == 1 && t < 2 && tag == if t == 0 then 0x81 else 0x91
    case Feature => (width == 1 && tag == 0xB1) || (width == 2 && tag == 0xB2)
    case Id(v) => width == 1 && tag == 0x85 && v < 0x100
    case Push => width == 0 && tag == 0xA4
    case Pop => width == 0 && tag == 0xB4
  }

  datatype Content = Any | Exactly(value: int)

  // The value in the data; what is skipped may hold anything.
  function ContentOf(i: Item): Content
  {
    match i
    case SetPage(v) => Exactly(v)
    case AddUsage(v, _) => Exactly(v)
    case SetMin(v) => Exactly(v)
    case SetMax(v) => Exactly(v)
    case SetUsageMax(v) => Exactly(SignedWord(v))
    case SetSize(v) => Exactly(v)
    case SetCount(v) => Exactly(v)
    case Field(_, flags) => Exactly(flags)
    case Id(v) => Exactly(v)
    case _ => Any
  }

  predicate CodeOk(c: Code)
  {
    && |c.data| in {0, 1, 2, 4} && Form(c.item, c.tag, |c.data|)
    && (ContentOf(c.item).Exactly? ==> c.data == LittleEndian(ContentOf(c.item).value, |c.data|))
  }

  lemma Read2(m: seq<octet>, at: nat, v: int)
    requires at + 2 <= |m| && m[at..at + 2] == Bytes2(v)
    ensures U16(m, at) == v % U16_MOD
  {
    assert m[at] == m[at..at + 2][0] && m[at + 1] == m[at..at + 2][1];
  }

  lemma Halves(v: int)
    ensures v % U32_MOD == v % U16_MOD + U16_MOD * ((v / U16_MOD) % U16_MOD)
  {
  }

  lemma Read4(m: seq<octet>, at: nat, v: int)
    requires at + 4 <= |m| && m[at..at + 4] == Bytes4(v)
    ensures U32(m, at) == v % U32_MOD
  {
    hide U16, Bytes2;
    Halves(v);
    assert m[at..at + 2] == m[at..at + 4][..2] == Bytes2(v);
    assert m[at + 2..at + 4] == m[at..at + 4][2..] == Bytes2(v / U16_MOD);
    Read2(m, at, v);
    Read2(m, at + 2, v / U16_MOD);
  }

  // Data of any width, read as a number and as a signed one.
  lemma ReadData(m: seq<octet>, at: nat, v: int, width: nat)
    requires at + 4 <= |m| && width in {1, 2, 4} && m[at..at + width] == LittleEndian(v, width)
    ensures width == 1 ==> U8(m, at) == v % 0x100 && (-0x80 <= v < 0x80 ==> Signed(U8(m, at), 0x100) == v)
    ensures width == 2 ==> U16(m, at) == v % U16_MOD && (-0x8000 <= v < 0x8000 ==> Signed(U16(m, at), U16_MOD) == v)
    ensures width == 4 ==>
              U32(m, at) == v % U32_MOD && (-0x8000_0000 <= v < 0x8000_0000 ==> Signed(U32(m, at), U32_MOD) == v)
  {
    if width == 1 {
      assert m[at] == m[at..at + 1][0];
      SignedWraps(v, 0x100);
    } else if width == 2 {
      Read2(m, at, v);
      SignedWraps(v, U16_MOD);
    } else {
      Read4(m, at, v);
      SignedWraps(v, U32_MOD);
    }
  }

  lemma SignedWraps(v: int, mod: nat)
    requires mod == 0x100 || mod == U16_MOD || mod == U32_MOD
    ensures 0 <= 2 * v + mod && 2 * v < mod ==> Signed(v % mod, mod) == v
  {
    if mod == 0x100 {
      assert -0x100 <= 2 * v < 0x100 ==> Signed(v % 0x100, 0x100) == v;
    } else if mod == U16_MOD {
      assert -0x1_0000 <= 2 * v < 0x1_0000 ==> Signed(v % U16_MOD, U16_MOD) == v;
    } else {
      assert -0x1_0000_0000 <= 2 * v < 0x1_0000_0000 ==> Signed(v % U32_MOD, U32_MOD) == v;
    }
  }

  lemma WordWraps(v: nat)
    requires v < U32_MOD
    ensures Word(SignedWord(v)) == v
  {
  }

  // Whatever tag and width an item is written with, it is read as that item.
  lemma ReadsBack(m: seq<octet>, at: nat, c: Code)
    requires CodeOk(c) && at + 5 <= |m| && m[at..at + 1 + |c.data|] == [c.tag] + c.data
    ensures ItemAt(m, at) == Read(c.item, at + 1 + |c.data|)
  {
    var w := |c.data|;
    assert m[at] == m[at..at + 1 + w][0] == c.tag;
    assert m[at + 1..at + 1 + w] == m[at..at + 1 + w][1..] == c.data;
    if ContentOf(c.item).Exactly? {
      ReadData(m, at + 1, ContentOf(c.item).value, w);
      if c.item.SetUsageMax? {
        WordWraps(c.item.usageMax);
      }
      ReadsValue(m, at, c);
    } else {
      hide U8, U16, U32, Signed, Word, Bytes2, Bytes4, B, LittleEndian;
    }
  }

  lemma ReadsValue(m: seq<octet>, at: nat, c: Code)
    requires CodeOk(c) && at + 5 <= |m| && m[at] == c.tag && ContentOf(c.item).Exactly?
    requires var v, w, p := ContentOf(c.item).value, |c.data|, at + 1;
             && (w == 1 ==> U8(m, p) == v % 0x100 && (-0x80 <= v < 0x80 ==> Signed(U8(m, p), 0x100) == v))
             && (w == 2 ==> U16(m, p) == v % U16_MOD && (-0x8000 <= v < 0x8000 ==> Signed(U16(m, p), U16_MOD) == v))
             && (w == 4 ==>
                   U32(m, p) == v % U32_MOD && (-0x8000_0000 <= v < 0x8000_0000 ==> Signed(U32(m, p), U32_MOD) == v))
    requires c.item.SetUsageMax? ==> Word(SignedWord(c.item.usageMax)) == c.item.usageMax
    ensures ItemAt(m, at) == Read(c.item, at + 1 + |c.data|)
  {
    hide U16, U32, Signed, Word, Bytes2, Bytes4, B, LittleEndian, SignedWord;
  }

  // ... and nothing else is read as an item.
  lemma ReadIsCode(m: seq<octet>, at: nat)
    requires at + 5 <= |m| && ItemAt(m, at).Read?
    ensures var r := ItemAt(m, at); CodeOk(Code(r.item, m[at], m[at + 1..r.next]))
  {
    var p := at + 1;
    DataRead(m, p);
    SignedDataRead(m, p);
    WordBack(Signed(U8(m, p), 0x100));
    WordBack(Signed(U16(m, p), U16_MOD));
    WordBack(Signed(U32(m, p), U32_MOD));
    hide CodeOk, ItemAt;
    if m[at] in {0x15, 0x16, 0x17, 0x25, 0x26, 0x27, 0x29, 0x2A, 0x2B} {
      SignedIsCode(m, at);
    } else {
      PlainIsCode(m, at);
    }
  }

  lemma PlainIsCode(m: seq<octet>, at: nat)
    requires at + 5 <= |m| && ItemAt(m, at).Read? && m[at] !in {0x15, 0x16, 0x17, 0x25, 0x26, 0x27, 0x29, 0x2A, 0x2B}
    requires var p := at + 1;
             && [B(U8(m, p))] == m[p..p + 1] && Bytes2(U16(m, p)) == m[p..p + 2] && Bytes4(U32(m, p)) == m[p..p + 4]
    ensures var r := ItemAt(m, at); CodeOk(Code(r.item, m[at], m[at + 1..r.next]))
  {
    assert U8(m, at + 1) < 0x100;
    hide U8, U16, U32, Signed, Word, Bytes2, Bytes4, B;
  }

  lemma SignedIsCode(m: seq<octet>, at: nat)
    requires at + 5 <= |m| && ItemAt(m, at).Read? && m[at] in {0x15, 0x16, 0x17, 0x25, 0x26, 0x27, 0x29, 0x2A, 0x2B}
    requires var p := at + 1;
             var a, b, c := Signed(U8(m, p), 0x100), Signed(U16(m, p), U16_MOD), Signed(U32(m, p), U32_MOD);
             && [B(a)] == m[p..p + 1] && Bytes2(b) == m[p..p + 2] && Bytes4(c) == m[p..p + 4]
             && Signable(a, 1) && Signable(b, 2) && Signable(c, 4)
             && SignedWord(Word(a)) == a && SignedWord(Word(b)) == b && SignedWord(Word(c)) == c
    ensures var r := ItemAt(m, at); CodeOk(Code(r.item, m[at], m[at + 1..r.next]))
  {
    hide U8, U16, U32, Signed, Word, SignedWord, Bytes2, Bytes4, B;
  }

  lemma WordBack(x: int)
    requires -0x8000_0000 <= x < 0x8000_0000
    ensures SignedWord(Word(x)) == x
  {
  }

  lemma DataRead(m: seq<octet>, p: nat)
    requires p + 4 <= |m|
    ensures [B(U8(m, p))] == m[p..p + 1] && Bytes2(U16(m, p)) == m[p..p + 2] && Bytes4(U32(m, p)) == m[p..p + 4]
  {
    Split2(U16(m, p), m[p], m[p + 1]);
    Split2(U16(m, p + 2), m[p + 2], m[p + 3]);
    Split4(U16(m, p), U16(m, p + 2));
    hide Bytes2, Bytes4, U16;
    assert m[p..p + 4] == [m[p], m[p + 1]] + [m[p + 2], m[p + 3]];
  }

  lemma SignedDataRead(m: seq<octet>, p: nat)
    requires p + 4 <= |m|
    ensures var a, b, c := Signed(U8(m, p), 0x100), Signed(U16(m, p), U16_MOD), Signed(U32(m, p), U32_MOD);
            && [B(a)] == m[p..p + 1] && Bytes2(b) == m[p..p + 2] && Bytes4(c) == m[p..p + 4]
            && Signable(a, 1) && Signable(b, 2) && Signable(c, 4)
  {
    DataRead(m, p);
    Same2(U16(m, p));
    Split4(U16(m, p), U16(m, p + 2));
    hide Bytes2, Bytes4, U16;
  }

  lemma Split2(v: nat, lo: octet, hi: octet)
    requires v == (lo as int) + 0x100 * (hi as int)
    ensures Bytes2(v) == [lo, hi]
  {
  }

  lemma Same2(v: nat)
    requires v < U16_MOD
    ensures Bytes2(Signed(v, U16_MOD)) == Bytes2(v)
  {
    hide Bytes2;
    if 2 * v >= U16_MOD {
      Wraps2(v, -1);
    }
  }

  lemma Wraps2(v: int, k: int)
    ensures Bytes2(v + U16_MOD * k) == Bytes2(v)
  {
    assert (v + U16_MOD * k) / 0x100 == v / 0x100 + 0x100 * k;
  }

  lemma Split4(lo: nat, hi: nat)
    requires lo < U16_MOD && hi < U16_MOD
    ensures var v := lo + U16_MOD * hi;
            Bytes4(v) == Bytes2(lo) + Bytes2(hi) && Bytes4(Signed(v, U32_MOD)) == Bytes2(lo) + Bytes2(hi)
  {
    var v := lo + U16_MOD * hi;
    Wraps2(lo, hi);
    Wraps2(lo, hi - U16_MOD);
    Wraps2(hi, -1);
    assert v / U16_MOD == hi && (v - U32_MOD) / U16_MOD == hi - U16_MOD;
    assert v - U32_MOD == lo + U16_MOD * (hi - U16_MOD);
    hide Bytes2;
  }

  function EncodeAll(codes: seq<Code>): (r: seq<octet>)
  {
    if codes == [] then [] else [codes[0].tag] + codes[0].data + EncodeAll(codes[1..])
  }

  function ItemsOf(codes: seq<Code>): (r: seq<Item>)
    ensures |r| == |codes|
  {
    if codes == [] then [] else [codes[0].item] + ItemsOf(codes[1..])
  }

  // The parser reads back every sequence of items however each is written, and whatever follows it in memory.
  lemma {:induction false} DecodesBack(m: seq<octet>, at: nat, len: nat, codes: seq<Code>)
    requires forall i :: 0 <= i < |codes| ==> CodeOk(codes[i])
    requires len + 4 <= |m| && at <= len && m[at..len] == EncodeAll(codes)
    ensures Decode(m, len, at) == Parsed(ItemsOf(codes), true)
    decreases |codes|
  {
    if codes != [] {
      hide ItemAt, CodeOk;
      var c := codes[0];
      var next := at + 1 + |c.data|;
      SplitCode(m, at, len, c, EncodeAll(codes[1..]));
      ReadsBack(m, at, c);
      DecodesBack(m, next, len, codes[1..]);
    }
  }

  lemma SplitCode(m: seq<octet>, at: nat, len: nat, c: Code, rest: seq<octet>)
    requires at <= len <= |m| && m[at..len] == [c.tag] + c.data + rest
    ensures at + 1 + |c.data| <= len && m[at..at + 1 + |c.data|] == [c.tag] + c.data
    ensures m[at + 1 + |c.data|..len] == rest
  {
    var next := at + 1 + |c.data|;
    assert m[at..next] == m[at..len][..1 + |c.data|];
    assert m[next..len] == m[at..len][1 + |c.data|..];
  }
}
