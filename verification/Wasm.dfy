// The wasm section walk (internal/registry/classify.go): finding the contract spec in a
// module whose bytes come from the chain and are not trusted. Sections 5.2.2, 5.5.2 and
// 5.5.3 of the WebAssembly Core Specification give the encoding it inverts.
module Wasm {
  import opened Basics

  const MAX_U64 := 0xFFFF_FFFF_FFFF_FFFF
  const MAX_VARINT_LEN := 10

  const WASM_MAGIC: Bytes := [0x00, 0x61, 0x73, 0x6d]

  /** "contractspecv0" */
  const SPEC_NAME: Bytes := [0x63, 0x6f, 0x6e, 0x74, 0x72, 0x61, 0x63, 0x74, 0x73, 0x70, 0x65, 0x63, 0x76, 0x30]

  // --- LEB128 -----------------------------------------------------------------

  /** The unsigned LEB128 number a buffer opens with, unbounded, and the bytes it takes. */
  function Leb(buf: Bytes): (r: Option<(nat, nat)>)
    ensures r.Some? ==> 0 < r.value.1 <= |buf|
  {
    if buf == [] then None
    else if buf[0] < 128 then Some((buf[0], 1))
    else
      match Leb(buf[1..])
      case None => None
      case Some((v, n)) => Some((buf[0] - 128 + 128 * v, n + 1))
  }

  /** The number a 64-bit reader takes: at most ten bytes, and no more than 64 bits. */
  function Varint(buf: Bytes): Option<(nat, nat)> {
    var r := Leb(buf);
    if r.Some? && r.value.1 <= MAX_VARINT_LEN && r.value.0 <= MAX_U64 then r else None
  }

  function Scale(i: nat): (r: nat)
    ensures r > 0
  {
    if i == 0 then 1 else 128 * Scale(i - 1)
  }

  /** The seven bits of byte number i put in their place above x. */
  function WithBits(x: nat, i: nat, bits: nat): nat {
    x + Scale(i) * bits
  }

  /** What reading i continued bytes first makes of the number behind them. */
  function Behind(x: nat, i: nat, rest: Option<(nat, nat)>): Option<(nat, nat)> {
    match rest
    case None => None
    case Some((v, n)) => Some((WithBits(x, i, v), n + i))
  }

  /** i continued bytes were read into x. */
  ghost predicate ReadSoFar(buf: Bytes, i: nat, x: nat) {
    i <= |buf| && x < Scale(i) && Leb(buf) == Behind(x, i, Leb(buf[i..]))
  }

  /** encoding/binary's Uvarint; n <= 0 reports a buffer that ends too soon or a number over 64 bits. */
  method Uvarint(buf: Bytes) returns (x: nat, n: int)
    ensures n > 0 <==> Varint(buf).Some?
    ensures n > 0 ==> Varint(buf) == Some((x, n as nat))
  {
    x := 0;
    for i := 0 to |buf|
      invariant i <= MAX_VARINT_LEN && ReadSoFar(buf, i, x)
    {
      if i == MAX_VARINT_LEN {
        return 0, -(i + 1);
      }
      var b := buf[i];
      if b < 0x80 {
        LastByte(buf, i, x);
        if i == MAX_VARINT_LEN - 1 && b > 1 {
          return 0, -(i + 1);
        }
        return WithBits(x, i, b), i + 1;
      }
      ContinuedByte(buf, i, x);
      x := WithBits(x, i, b - 128);
    }
    return 0, 0;
  }

  lemma ContinuedByte(buf: Bytes, i: nat, x: nat)
    requires ReadSoFar(buf, i, x) && i < |buf| && 128 <= buf[i]
    ensures ReadSoFar(buf, i + 1, WithBits(x, i, buf[i] - 128))
  {
    var rest := Leb(buf[i + 1..]);
    assert buf[i..][1..] == buf[i + 1..];
    BitsFit(x, i, buf[i] - 128);
    if rest.Some? {
      BitsNest(x, i, buf[i] - 128, rest.value.0);
    }
  }

  lemma BitsNest(x: nat, i: nat, bits: nat, v: nat)
    ensures WithBits(x, i, bits + 128 * v) == WithBits(WithBits(x, i, bits), i + 1, v)
  {
  }

  lemma BitsFit(x: nat, i: nat, bits: nat)
    requires x < Scale(i) && bits < 128
    ensures WithBits(x, i, bits) < Scale(i + 1)
  {
  }

  /** Ten bytes fit in 64 bits exactly when the tenth is 0 or 1. */
  lemma LastByte(buf: Bytes, i: nat, x: nat)
    requires ReadSoFar(buf, i, x) && i < |buf| && buf[i] < 128 && i < MAX_VARINT_LEN
    ensures Leb(buf) == Some((WithBits(x, i, buf[i]), i + 1))
    ensures WithBits(x, i, buf[i]) <= MAX_U64 <==> !(i == MAX_VARINT_LEN - 1 && buf[i] > 1)
  {
    TopBits(x, i, buf[i]);
  }

  lemma TopBits(x: nat, i: nat, bits: nat)
    requires x < Scale(i) && bits < 128 && i < MAX_VARINT_LEN
    ensures WithBits(x, i, bits) <= MAX_U64 <==> !(i == MAX_VARINT_LEN - 1 && bits > 1)
  {
    assert Scale(9) == 0x8000_0000_0000_0000;
    if i < 9 {
      BitsFit(x, i, bits);
      ScaleGrows(i + 1, 9);
    } else if bits > 1 {
      assert Scale(9) * bits >= Scale(9) * 2;
    } else {
      assert Scale(9) * bits <= Scale(9);
    }
  }

  lemma {:induction false} ScaleGrows(i: nat, j: nat)
    requires i <= j
    ensures Scale(i) <= Scale(j)
  {
    if i < j {
      ScaleGrows(i, j - 1);
    }
  }

  /** Encoding a number and reading it back, whatever follows it. */
  function Encode(v: nat): Bytes {
    if v < 128 then [v] else [v % 128 + 128] + Encode(v / 128)
  }

  lemma {:induction false} LebInvertsEncode(v: nat, rest: Bytes)
    ensures Leb(Encode(v) + rest) == Some((v, |Encode(v)|))
  {
    var all := Encode(v) + rest;
    if v >= 128 {
      LebInvertsEncode(v / 128, rest);
      assert all[1..] == Encode(v / 128) + rest;
    }
  }

  /** A number that fits 64 bits takes at most ten bytes, so the reader accepts it. */
  lemma EncodedIsALength(v: nat)
    requires v <= MAX_U64
    ensures IsLength(Encode(v), v)
  {
    LebInvertsEncode(v, []);
    assert Encode(v) + [] == Encode(v);
    EncodedLength(v, MAX_VARINT_LEN);
  }

  lemma {:induction false} EncodedLength(v: nat, n: nat)
    requires 0 < n && v < Scale(n)
    ensures |Encode(v)| <= n
  {
    if v >= 128 {
      assert Scale(n) == 128 * Scale(n - 1);
      EncodedLength(v / 128, n - 1);
    }
  }

  // --- sections ----------------------------------------------------------------

  /** bs is a LEB128 spelling of v, padded or not, that the reader accepts. */
  predicate IsLength(bs: Bytes, v: nat) {
    Varint(bs) == Some((v, |bs|))
  }

  /** A custom section opens with its name; any other section is its body. */
  datatype Section =
    | Plain(id: Byte, size: Bytes, body: Bytes)
    | Custom(size: Bytes, nameSize: Bytes, name: Bytes, payload: Bytes)
  {
    function Contents(): Bytes {
      match this
      case Plain(_, _, body) => body
      case Custom(_, nameSize, name, payload) => nameSize + (name + payload)
    }

    predicate Valid() {
      && IsLength(size, |Contents()|)
      && (if Plain? then id != 0 else IsLength(nameSize, |name|))
    }

    predicate IsSpec() {
      Custom? && name == SPEC_NAME
    }

    function Encoded(): Bytes {
      [if Plain? then id else 0] + (size + Contents())
    }
  }

  function EncodedAll(ss: seq<Section>): Bytes {
    if ss == [] then [] else ss[0].Encoded() + EncodedAll(ss[1..])
  }

  /** The field a length prefix announces, and what follows it. */
  function Framed(buf: Bytes): (r: Option<(Bytes, Bytes)>)
    ensures r.Some? ==> |r.value.0| + |r.value.1| < |buf|
  {
    match Varint(buf)
    case None => None
    case Some((size, n)) => if size > |buf| - n then None else Some((buf[n..n + size], buf[n + size..]))
  }

  /** The payload of the first spec section met, stopping at the first byte that does not parse. */
  function SpecIn(rest: Bytes): Option<Bytes>
    decreases |rest|
  {
    if rest == [] then None
    else
      match Framed(rest[1..])
      case None => None
      case Some((section, tail)) =>
        if rest[0] != 0 then SpecIn(tail)
        else
          match Framed(section)
          case None => None
          case Some((name, payload)) => if name == SPEC_NAME then Some(payload) else SpecIn(tail)
  }

  method ContractSpecSection(wasm: Bytes) returns (spec: Option<Bytes>)
    ensures spec == if |wasm| >= 8 && wasm[..4] == WASM_MAGIC then SpecIn(wasm[8..]) else None
  {
    if |wasm| < 8 || wasm[..4] != WASM_MAGIC {
      return None;
    }
    var rest := wasm[8..];
    while |rest| > 0
      invariant SpecIn(rest) == SpecIn(wasm[8..])
      decreases |rest|
    {
      var section := ReadFramed(rest[1..]);
      if section.None? {
        return None;
      }
      var sectionId := rest[0];
      rest := section.value.1;
      if sectionId != 0 {
        continue;
      }
      var named := ReadFramed(section.value.0);
      if named.None? {
        return None;
      }
      if named.value.0 == SPEC_NAME {
        return Some(named.value.1);
      }
    }
    return None;
  }

  /** One length-prefixed field, with its bounds checked. */
  method ReadFramed(buf: Bytes) returns (r: Option<(Bytes, Bytes)>)
    ensures r == Framed(buf)
  {
    var size, n := Uvarint(buf);
    if n <= 0 || size > |buf| - n {
      return None;
    }
    return Some((buf[n..n + size], buf[n + size..]));
  }

  // --- the walk inverts the encoding --------------------------------------------

  lemma {:induction false} LebReadsNoFurther(bs: Bytes, rest: Bytes)
    requires Leb(bs).Some?
    ensures Leb(bs + rest) == Leb(bs)
  {
    assert (bs + rest)[0] == bs[0];
    if bs[0] >= 128 {
      assert (bs + rest)[1..] == bs[1..] + rest;
      LebReadsNoFurther(bs[1..], rest);
    }
  }

  lemma FramedInverts(size: Bytes, field: Bytes, tail: Bytes)
    requires IsLength(size, |field|)
    ensures Framed(size + (field + tail)) == Some((field, tail))
  {
    var buf := size + (field + tail);
    LebReadsNoFurther(size, field + tail);
    assert buf[|size|..|size| + |field|] == field;
    assert buf[|size| + |field|..] == tail;
  }

  lemma SectionIsWalked(s: Section, tail: Bytes)
    requires s.Valid()
    ensures SpecIn(s.Encoded() + tail) == if s.IsSpec() then Some(s.payload) else SpecIn(tail)
  {
    var rest := s.Encoded() + tail;
    SectionIsFramed(s, tail);
    if s.Custom? {
      FramedInverts(s.nameSize, s.name, s.payload);
    }
  }

  lemma BehindTheId(id: Byte, size: Bytes, contents: Bytes, tail: Bytes)
    ensures var rest := ([id] + (size + contents)) + tail; rest[0] == id && rest[1..] == size + (contents + tail)
  {
    var rest := ([id] + (size + contents)) + tail;
    assert rest == [id] + (size + (contents + tail));
  }

  lemma SectionIsFramed(s: Section, tail: Bytes)
    requires s.Valid()
    ensures var rest := s.Encoded() + tail;
      rest != [] && (rest[0] != 0 <==> s.Plain?) && Framed(rest[1..]) == Some((s.Contents(), tail))
  {
    BehindTheId(if s.Plain? then s.id else 0, s.size, s.Contents(), tail);
    FramedInverts(s.size, s.Contents(), tail);
  }

  /** The first spec section of a list, if it has one. */
  function FirstSpec(ss: seq<Section>): Option<Bytes> {
    if ss == [] then None else if ss[0].IsSpec() then Some(ss[0].payload) else FirstSpec(ss[1..])
  }

  ghost predicate AllValid(ss: seq<Section>) {
    forall i :: 0 <= i < |ss| ==> ss[i].Valid()
  }

  /** On any module built from sections, however their lengths are spelled, the walk returns
      the payload of the first spec section, or reports none. */
  lemma {:induction false} WalkInvertsEncoding(ss: seq<Section>)
    requires AllValid(ss)
    ensures SpecIn(EncodedAll(ss)) == FirstSpec(ss)
  {
    if ss != [] {
      SectionIsWalked(ss[0], EncodedAll(ss[1..]));
      WalkInvertsEncoding(ss[1..]);
    }
  }

  /** The bytes open with well-formed sections, the last of them the first spec section. */
  ghost predicate SpecStandsIn(rest: Bytes, payload: Bytes) {
    exists ss, tail :: SpecStandsAt(rest, ss, tail, payload)
  }

  ghost predicate SpecStandsAt(rest: Bytes, ss: seq<Section>, tail: Bytes, payload: Bytes) {
    rest == EncodedAll(ss) + tail && AllValid(ss) && FirstSpec(ss) == Some(payload)
  }

  lemma FirstStands(ss: seq<Section>, tail: Bytes)
    requires ss != []
    ensures EncodedAll(ss) + tail == ss[0].Encoded() + (EncodedAll(ss[1..]) + tail)
  {
    Regroup(ss[0].Encoded(), EncodedAll(ss[1..]), tail);
  }

  lemma Regroup(a: Bytes, b: Bytes, c: Bytes)
    ensures (a + b) + c == a + (b + c)
  {
  }

  lemma {:induction false} StandingSpecIsFound(rest: Bytes, ss: seq<Section>, tail: Bytes, payload: Bytes)
    requires SpecStandsAt(rest, ss, tail, payload)
    ensures SpecIn(rest) == Some(payload)
    decreases |ss|
  {
    var behind := EncodedAll(ss[1..]) + tail;
    FirstStands(ss, tail);
    SectionIsWalked(ss[0], behind);
    if !ss[0].IsSpec() {
      StandingSpecIsFound(behind, ss[1..], tail, payload);
    }
  }

  lemma LengthPrefix(buf: Bytes)
    requires Varint(buf).Some?
    ensures var (v, n) := Varint(buf).value; IsLength(buf[..n], v)
  {
    LebNeedsOnlyItsBytes(buf);
  }

  lemma {:induction false} LebNeedsOnlyItsBytes(buf: Bytes)
    requires Leb(buf).Some?
    ensures Leb(buf[..Leb(buf).value.1]) == Leb(buf)
  {
    var n := Leb(buf).value.1;
    if buf[0] >= 128 {
      LebNeedsOnlyItsBytes(buf[1..]);
      assert buf[..n][1..] == buf[1..][..n - 1];
    }
  }

  lemma FramedSpells(buf: Bytes) returns (size: Bytes)
    requires Framed(buf).Some?
    ensures var (field, tail) := Framed(buf).value; IsLength(size, |field|) && buf == size + (field + tail)
  {
    LengthPrefix(buf);
    size := buf[..Varint(buf).value.1];
  }

  /** The section a walk step consumes, spelled out. */
  lemma WalkedIsASection(rest: Bytes) returns (s: Section)
    requires rest != [] && Framed(rest[1..]).Some?
    requires rest[0] == 0 ==> Framed(Framed(rest[1..]).value.0).Some?
    ensures s.Valid() && rest == s.Encoded() + Framed(rest[1..]).value.1
    ensures s.Plain? <==> rest[0] != 0
    ensures s.Custom? ==> (s.name, s.payload) == Framed(Framed(rest[1..]).value.0).value
  {
    var (section, tail) := Framed(rest[1..]).value;
    var size := FramedSpells(rest[1..]);
    if rest[0] != 0 {
      s := Plain(rest[0], size, section);
    } else {
      var nameSize := FramedSpells(section);
      s := Custom(size, nameSize, Framed(section).value.0, Framed(section).value.1);
    }
    assert s.Contents() == section;
    SpelledOut(rest, if rest[0] != 0 then rest[0] else 0, size, section, tail);
  }

  lemma SpelledOut(rest: Bytes, id: Byte, size: Bytes, section: Bytes, tail: Bytes)
    requires rest != [] && rest[0] == id && rest[1..] == size + (section + tail)
    ensures rest == [id] + (size + section) + tail
  {
  }

  lemma {:induction false} FoundSpecStands(rest: Bytes) returns (ss: seq<Section>, tail: Bytes)
    requires SpecIn(rest).Some?
    ensures SpecStandsAt(rest, ss, tail, SpecIn(rest).value)
    decreases |rest|
  {
    var s := WalkedIsASection(rest);
    var behind := Framed(rest[1..]).value.1;
    if s.IsSpec() {
      ss, tail := [s], behind;
      assert ss[1..] == [];
    } else {
      var more: seq<Section>;
      more, tail := FoundSpecStands(behind);
      ss := [s] + more;
      StandsBehind(rest, s, behind, more, tail, SpecIn(rest).value);
    }
  }

  lemma StandsBehind(rest: Bytes, s: Section, behind: Bytes, more: seq<Section>, tail: Bytes, payload: Bytes)
    requires s.Valid() && !s.IsSpec() && rest == s.Encoded() + behind && SpecStandsAt(behind, more, tail, payload)
    ensures SpecStandsAt(rest, [s] + more, tail, payload)
  {
  }

  /** On arbitrary bytes: a payload is returned exactly when it stands in them as the first
      spec section behind well-formed ones. */
  lemma SpecIsFoundIffItStands(rest: Bytes, payload: Bytes)
    ensures SpecIn(rest) == Some(payload) <==> SpecStandsIn(rest, payload)
  {
    if SpecIn(rest) == Some(payload) {
      var ss, tail := FoundSpecStands(rest);
    }
    if SpecStandsIn(rest, payload) {
      var ss, tail :| SpecStandsAt(rest, ss, tail, payload);
      StandingSpecIsFound(rest, ss, tail, payload);
    }
  }
}
