/**
 Chunk ids and vector point ids, both cut from one SHA-256 digest of a canonical string.
 The hash is a parameter: any function from strings to 32-byte digests.
 */
module ChunkIds {
  import opened Text

  type Byte = bv8
  type Digest = d: seq<Byte> | |d| == 32 witness seq(32, _ => 0)

  const SEP: char := 0x1f as char

  // ----- the canonical string -----

  datatype ChunkKey = ChunkKey(
    documentId: string,
    contentHash: string,
    configVersion: string,
    segmentPath: string,
    chunkIndex: int)

  function CanonicalString(k: ChunkKey): string {
    k.documentId + [SEP] + (k.contentHash + [SEP] + (k.configVersion + [SEP]
      + (k.segmentPath + [SEP] + Render(k.chunkIndex))))
  }

  /** The five fields in their order, joined by the ASCII unit separator. */
  lemma FieldsInOrder(k: ChunkKey)
    ensures var us := [31 as char];
            CanonicalString(k) == k.documentId + us + k.contentHash + us + k.configVersion + us
                                  + k.segmentPath + us + Render(k.chunkIndex)
  {
    var us, last := [31 as char], Render(k.chunkIndex);
    Associate(k.documentId + us + k.contentHash + us + k.configVersion + us, k.segmentPath + us, last);
    Associate(k.documentId + us + k.contentHash + us, k.configVersion + us, k.segmentPath + us + last);
    Associate(k.documentId + us, k.contentHash + us, k.configVersion + us + (k.segmentPath + us + last));
  }

  lemma Associate(x: string, y: string, z: string)
    ensures x + y + z == x + (y + z)
  {
  }

  predicate HeadFieldsFree(k: ChunkKey) {
    SEP !in k.documentId && SEP !in k.contentHash && SEP !in k.configVersion
  }

  /** Only the first three fields must avoid the separator; the segment path may contain it. */
  lemma CanonicalInjective(a: ChunkKey, b: ChunkKey)
    requires HeadFieldsFree(a) && HeadFieldsFree(b)
    requires CanonicalString(a) == CanonicalString(b)
    ensures a == b
  {
    var a4, b4 := a.segmentPath + [SEP] + Render(a.chunkIndex), b.segmentPath + [SEP] + Render(b.chunkIndex);
    var a3, b3 := a.configVersion + [SEP] + a4, b.configVersion + [SEP] + b4;
    SplitAtFirst(a.documentId, a.contentHash + [SEP] + a3, b.documentId, b.contentHash + [SEP] + b3, SEP);
    SplitAtFirst(a.contentHash, a3, b.contentHash, b3, SEP);
    SplitAtFirst(a.configVersion, a4, b.configVersion, b4, SEP);
    SplitAtLast(a.segmentPath, Render(a.chunkIndex), b.segmentPath, Render(b.chunkIndex), SEP);
    RenderInjective(a.chunkIndex, b.chunkIndex);
  }

  /** The condition matters: a separator in the config version lets two different keys collide. */
  lemma CanonicalCollidesOnSeparator()
    ensures exists a: ChunkKey, b: ChunkKey ::
      a != b && HeadFieldsFree(a) && CanonicalString(a) == CanonicalString(b)
  {
    var a := ChunkKey("d", "h", "c", ['p', SEP, 'q'], 0);
    var b := ChunkKey("d", "h", ['c', SEP, 'p'], "q", 0);
    assert a.configVersion != b.configVersion;
    assert a.configVersion + [SEP] + (a.segmentPath + [SEP] + Render(0))
        == b.configVersion + [SEP] + (b.segmentPath + [SEP] + Render(0));
    assert CanonicalString(a) == CanonicalString(b);
  }

  predicate FieldsFree(k: ChunkKey) {
    HeadFieldsFree(k) && SEP !in k.segmentPath
  }

  function Separators(s: string): (n: nat)
    ensures n == 0 <==> SEP !in s
  {
    multiset(s)[SEP]
  }

  lemma SeparatorsOfJoint(x: string, tail: string)
    ensures Separators(x + [SEP] + tail) == Separators(x) + 1 + Separators(tail)
  {
    assert multiset(x + [SEP] + tail) == multiset(x) + multiset([SEP]) + multiset(tail);
  }

  /** The end of a canonical string, from the config version on. */
  lemma SeparatorsOfEnd(k: ChunkKey)
    ensures var end := k.configVersion + [SEP] + (k.segmentPath + [SEP] + Render(k.chunkIndex));
            Separators(end) == 2 + Separators(k.configVersion) + Separators(k.segmentPath)
  {
    SeparatorsOfJoint(k.configVersion, k.segmentPath + [SEP] + Render(k.chunkIndex));
    SeparatorsOfJoint(k.segmentPath, Render(k.chunkIndex));
    assert SEP !in Render(k.chunkIndex);
  }

  /** A canonical string has four joints, and the separators inside the fields. */
  lemma SeparatorsOf(k: ChunkKey)
    ensures FieldsFree(k) <==> Separators(CanonicalString(k)) == 4
  {
    var end := k.configVersion + [SEP] + (k.segmentPath + [SEP] + Render(k.chunkIndex));
    SeparatorsOfEnd(k);
    SeparatorsOfJoint(k.contentHash, end);
    SeparatorsOfJoint(k.documentId, k.contentHash + [SEP] + end);
    assert CanonicalString(k) == k.documentId + [SEP] + (k.contentHash + [SEP] + end);
  }

  /** With a separator in a field the joint can be moved into it. */
  lemma MovedJoint(a: ChunkKey) returns (b: ChunkKey)
    requires !FieldsFree(a)
    ensures b != a && CanonicalString(b) == CanonicalString(a)
  {
    if SEP in a.segmentPath {
      var i :| 0 <= i < |a.segmentPath| && a.segmentPath[i] == SEP;
      var x, y := CutAt(a.segmentPath, i);
      b := a.(configVersion := a.configVersion + [SEP] + x, segmentPath := y);
      Regroup(a.configVersion, x, y, Render(a.chunkIndex));
    } else if SEP in a.configVersion {
      var i :| 0 <= i < |a.configVersion| && a.configVersion[i] == SEP;
      var x, y := CutAt(a.configVersion, i);
      b := a.(contentHash := a.contentHash + [SEP] + x, configVersion := y);
      Regroup(a.contentHash, x, y, a.segmentPath + [SEP] + Render(a.chunkIndex));
    } else if SEP in a.contentHash {
      var i :| 0 <= i < |a.contentHash| && a.contentHash[i] == SEP;
      var x, y := CutAt(a.contentHash, i);
      b := a.(documentId := a.documentId + [SEP] + x, contentHash := y);
      Regroup(a.documentId, x, y, a.configVersion + [SEP] + (a.segmentPath + [SEP] + Render(a.chunkIndex)));
    } else {
      var i :| 0 <= i < |a.documentId| && a.documentId[i] == SEP;
      var x, y := CutAt(a.documentId, i);
      b := a.(documentId := x, contentHash := y + [SEP] + a.contentHash);
      Regroup(x, y, a.contentHash, a.configVersion + [SEP] + (a.segmentPath + [SEP] + Render(a.chunkIndex)));
    }
  }

  lemma CutAt(s: string, i: nat) returns (x: string, y: string)
    requires i < |s| && s[i] == SEP
    ensures s == x + [SEP] + y && |y| < |s|
  {
    x, y := s[..i], s[i + 1..];
  }

  /** Which of two joints is the field boundary does not show. */
  lemma Regroup(head: string, x: string, y: string, tail: string)
    ensures head + [SEP] + ((x + [SEP] + y) + [SEP] + tail) == (head + [SEP] + x) + [SEP] + (y + [SEP] + tail)
  {
  }

  /** No other key has a key's canonical string if and only if none of its four text fields contains the separator. */
  lemma CanonicalIsUniqueExactly(a: ChunkKey)
    ensures (forall b: ChunkKey | CanonicalString(b) == CanonicalString(a) :: b == a) <==> FieldsFree(a)
  {
    if FieldsFree(a) {
      forall b: ChunkKey | CanonicalString(b) == CanonicalString(a)
        ensures b == a
      {
        SeparatorsOf(a);
        SeparatorsOf(b);
        CanonicalInjective(a, b);
      }
    } else {
      var b := MovedJoint(a);
    }
  }

  // ----- base32, section 6 of RFC 4648, lower case without padding -----

  const ALPHABET := "abcdefghijklmnopqrstuvwxyz234567"

  function Letter(v: Byte): char
    requires v < 32
  {
    ALPHABET[v as int]
  }

  /** By code points: 'a' to 'z' for the first twenty-six, '2' to '7' for the other six. */
  lemma LetterCodes(v: Byte)
    requires v < 32
    ensures Letter(v) as int == v as int + (if v < 26 then 97 else 24)
  {
    assert forall i | 0 <= i < 26 :: ALPHABET[i] as int == i + 97;
    assert forall i | 26 <= i < 32 :: ALPHABET[i] as int == i + 24;
  }

  lemma LetterInjective(v: Byte, w: Byte)
    requires v < 32 && w < 32
    ensures Letter(v) == Letter(w) <==> v == w
  {
    LetterCodes(v);
    LetterCodes(w);
  }

  /** The eight 5-bit groups of a 40-bit quantum. */
  function Groups(b0: Byte, b1: Byte, b2: Byte, b3: Byte, b4: Byte): (g: seq<Byte>)
    ensures |g| == 8 && forall i | 0 <= i < 8 :: g[i] < 32
  {
    [b0 >> 3,
     ((b0 & 7) << 2) | (b1 >> 6),
     (b1 >> 1) & 31,
     ((b1 & 1) << 4) | (b2 >> 4),
     ((b2 & 15) << 1) | (b3 >> 7),
     (b3 >> 2) & 31,
     ((b3 & 3) << 3) | (b4 >> 5),
     b4 & 31]
  }

  function ByteAt(d: seq<Byte>, i: nat): Byte {
    if i < |d| then d[i] else 0
  }

  /** 5-bit groups of all quanta; a short last quantum is filled with zero bytes. */
  function AllGroups(d: seq<Byte>): (g: seq<Byte>)
    ensures |g| == (|d| + 4) / 5 * 8
    ensures forall i | 0 <= i < |g| :: g[i] < 32
    decreases |d|
  {
    if |d| == 0 then []
    else
      Groups(d[0], ByteAt(d, 1), ByteAt(d, 2), ByteAt(d, 3), ByteAt(d, 4))
      + AllGroups(if |d| <= 5 then [] else d[5..])
  }

  function Letters(g: seq<Byte>): (s: string)
    requires forall i | 0 <= i < |g| :: g[i] < 32
    ensures |s| == |g| && forall i | 0 <= i < |g| :: s[i] == Letter(g[i])
  {
    seq(|g|, i requires 0 <= i < |g| => Letter(g[i]))
  }

  /** The number of letters that carry data; the rest of the last quantum is padding. */
  function DataLength(bytes: nat): (n: nat)
    ensures n <= (bytes + 4) / 5 * 8
  {
    (8 * bytes + 4) / 5
  }

  function Base32NoPad(d: seq<Byte>): (s: string)
    ensures |s| == DataLength(|d|)
  {
    Letters(AllGroups(d))[..DataLength(|d|)]
  }

  // ----- bit-level meaning of the encoding -----

  /** The bits of a byte, most significant first. */
  function ByteBits(b: Byte): (s: seq<bool>)
    ensures |s| == 8
  {
    [b & 128 != 0, b & 64 != 0, b & 32 != 0, b & 16 != 0, b & 8 != 0, b & 4 != 0, b & 2 != 0, b & 1 != 0]
  }

  function Bits(d: seq<Byte>): (s: seq<bool>)
    ensures |s| == 8 * |d|
  {
    if d == [] then [] else ByteBits(d[0]) + Bits(d[1..])
  }

  /** The five low bits of a group, most significant first. */
  function GroupBits(v: Byte): (s: seq<bool>)
    ensures |s| == 5
  {
    [v & 16 != 0, v & 8 != 0, v & 4 != 0, v & 2 != 0, v & 1 != 0]
  }

  function Spell(g: seq<Byte>): (s: seq<bool>)
    ensures |s| == 5 * |g|
  {
    if g == [] then [] else GroupBits(g[0]) + Spell(g[1..])
  }

  lemma {:induction false} BitsConcat(d: seq<Byte>, e: seq<Byte>)
    ensures Bits(d + e) == Bits(d) + Bits(e)
  {
    if d == [] {
      assert d + e == e;
    } else {
      assert (d + e)[1..] == d[1..] + e;
      BitsConcat(d[1..], e);
    }
  }

  lemma {:induction false} SpellConcat(g: seq<Byte>, h: seq<Byte>)
    ensures Spell(g + h) == Spell(g) + Spell(h)
  {
    if g == [] {
      assert g + h == h;
    } else {
      assert (g + h)[1..] == g[1..] + h;
      SpellConcat(g[1..], h);
    }
  }

  lemma ByteBitsInjective(a: Byte, b: Byte)
    requires ByteBits(a) == ByteBits(b)
    ensures a == b
  {
    var s, t := ByteBits(a), ByteBits(b);
    assert s[0] == t[0] && s[1] == t[1] && s[2] == t[2] && s[3] == t[3];
    assert s[4] == t[4] && s[5] == t[5] && s[6] == t[6] && s[7] == t[7];
  }

  lemma GroupBitsInjective(v: Byte, w: Byte)
    requires v < 32 && w < 32 && GroupBits(v) == GroupBits(w)
    ensures v == w
  {
    var s, t := GroupBits(v), GroupBits(w);
    assert s[0] == t[0] && s[1] == t[1] && s[2] == t[2] && s[3] == t[3] && s[4] == t[4];
  }

  lemma {:induction false} BitsInjective(d: seq<Byte>, e: seq<Byte>)
    requires |d| == |e| && Bits(d) == Bits(e)
    ensures d == e
  {
    if d != [] {
      assert ByteBits(d[0]) == Bits(d)[..8] && ByteBits(e[0]) == Bits(e)[..8];
      assert Bits(d[1..]) == Bits(d)[8..] && Bits(e[1..]) == Bits(e)[8..];
      ByteBitsInjective(d[0], e[0]);
      BitsInjective(d[1..], e[1..]);
    }
  }

  lemma {:induction false} SpellInjective(g: seq<Byte>, h: seq<Byte>)
    requires |g| == |h| && Spell(g) == Spell(h)
    requires forall i | 0 <= i < |g| :: g[i] < 32 && h[i] < 32
    ensures g == h
  {
    if g != [] {
      assert GroupBits(g[0]) == Spell(g)[..5] && GroupBits(h[0]) == Spell(h)[..5];
      assert Spell(g[1..]) == Spell(g)[5..] && Spell(h[1..]) == Spell(h)[5..];
      GroupBitsInjective(g[0], h[0]);
      SpellInjective(g[1..], h[1..]);
    }
  }

  // How each group is cut out of the bits of the one or two bytes it covers.

  lemma OuterGroups(b0: Byte, b4: Byte)
    ensures GroupBits(b0 >> 3) == ByteBits(b0)[..5]
    ensures GroupBits(b4 & 31) == ByteBits(b4)[3..]
  {
  }

  lemma MiddleGroups(b1: Byte, b3: Byte)
    ensures GroupBits((b1 >> 1) & 31) == ByteBits(b1)[2..7]
    ensures GroupBits((b3 >> 2) & 31) == ByteBits(b3)[1..6]
  {
  }

  lemma Group1(x: Byte, y: Byte)
    ensures GroupBits(((x & 7) << 2) | (y >> 6)) == ByteBits(x)[5..] + ByteBits(y)[..2]
  {
    var g := ((x & 7) << 2) | (y >> 6);
    assert g & 16 != 0 <==> x & 4 != 0;
    assert g & 8 != 0 <==> x & 2 != 0;
    assert g & 4 != 0 <==> x & 1 != 0;
    assert g & 2 != 0 <==> y & 128 != 0;
    assert g & 1 != 0 <==> y & 64 != 0;
    assert ByteBits(x)[5..] == [x & 4 != 0, x & 2 != 0, x & 1 != 0] && ByteBits(y)[..2] == [y & 128 != 0, y & 64 != 0];
    assert GroupBits(g) == [x & 4 != 0, x & 2 != 0, x & 1 != 0] + [y & 128 != 0, y & 64 != 0];
  }

  lemma LastBit(x: Byte)
    ensures ByteBits(x)[7..] == [ByteBits(x)[7]]
  {
  }

  lemma FirstFourBits(y: Byte)
    ensures ByteBits(y)[..4] == [ByteBits(y)[0], ByteBits(y)[1], ByteBits(y)[2], ByteBits(y)[3]]
  {
  }

  lemma OneAndFour(a: bool, b: bool, c: bool, d: bool, e: bool)
    ensures [a] + [b, c, d, e] == [a, b, c, d, e]
  {
  }

  lemma BitsOfGroup3(x: Byte, y: Byte)
    ensures GroupBits(((x & 1) << 4) | (y >> 4))
         == [ByteBits(x)[7], ByteBits(y)[0], ByteBits(y)[1], ByteBits(y)[2], ByteBits(y)[3]]
  {
  }

  lemma Group3(x: Byte, y: Byte)
    ensures GroupBits(((x & 1) << 4) | (y >> 4)) == ByteBits(x)[7..] + ByteBits(y)[..4]
  {
    BitsOfGroup3(x, y);
    LastBit(x);
    FirstFourBits(y);
    OneAndFour(ByteBits(x)[7], ByteBits(y)[0], ByteBits(y)[1], ByteBits(y)[2], ByteBits(y)[3]);
  }

  lemma Group4(x: Byte, y: Byte)
    ensures GroupBits(((x & 15) << 1) | (y >> 7)) == ByteBits(x)[4..] + ByteBits(y)[..1]
  {
    var g := ((x & 15) << 1) | (y >> 7);
    assert g & 16 != 0 <==> x & 8 != 0;
    assert g & 8 != 0 <==> x & 4 != 0;
    assert g & 4 != 0 <==> x & 2 != 0;
    assert g & 2 != 0 <==> x & 1 != 0;
    assert g & 1 != 0 <==> y & 128 != 0;
    assert ByteBits(x)[4..] == [x & 8 != 0, x & 4 != 0, x & 2 != 0, x & 1 != 0] && ByteBits(y)[..1] == [y & 128 != 0];
    assert GroupBits(g) == [x & 8 != 0, x & 4 != 0, x & 2 != 0, x & 1 != 0] + [y & 128 != 0];
  }

  lemma Group6(x: Byte, y: Byte)
    ensures GroupBits(((x & 3) << 3) | (y >> 5)) == ByteBits(x)[6..] + ByteBits(y)[..3]
  {
    var g := ((x & 3) << 3) | (y >> 5);
    assert g & 16 != 0 <==> x & 2 != 0;
    assert g & 8 != 0 <==> x & 1 != 0;
    assert g & 4 != 0 <==> y & 128 != 0;
    assert g & 2 != 0 <==> y & 64 != 0;
    assert g & 1 != 0 <==> y & 32 != 0;
    assert ByteBits(x)[6..] == [x & 2 != 0, x & 1 != 0] && ByteBits(y)[..3] == [y & 128 != 0, y & 64 != 0, y & 32 != 0];
    assert GroupBits(g) == [x & 2 != 0, x & 1 != 0] + [y & 128 != 0, y & 64 != 0, y & 32 != 0];
  }

  /** One quantum keeps its forty bits, in order. */
  lemma QuantumKeepsBits(b0: Byte, b1: Byte, b2: Byte, b3: Byte, b4: Byte)
    ensures Spell(Groups(b0, b1, b2, b3, b4)) == Bits([b0, b1, b2, b3, b4])
  {
    SpellEight(Groups(b0, b1, b2, b3, b4));
    OuterGroups(b0, b4);
    MiddleGroups(b1, b3);
    Group1(b0, b1);
    Group3(b1, b2);
    Group4(b2, b3);
    Group6(b3, b4);
    BitsFive(b0, b1, b2, b3, b4);
    Rejoin(ByteBits(b0), ByteBits(b1), ByteBits(b2), ByteBits(b3), ByteBits(b4));
  }

  lemma Rejoin<T>(s0: seq<T>, s1: seq<T>, s2: seq<T>, s3: seq<T>, s4: seq<T>)
    requires |s0| == |s1| == |s2| == |s3| == |s4| == 8
    ensures s0[..5] + (s0[5..] + s1[..2]) + s1[2..7] + (s1[7..] + s2[..4])
            + (s2[4..] + s3[..1]) + s3[1..6] + (s3[6..] + s4[..3]) + s4[3..]
         == s0 + s1 + s2 + s3 + s4
  {
  }

  lemma SpellHead(g: seq<Byte>, k: nat)
    requires k < |g|
    ensures Spell(g[k..]) == GroupBits(g[k]) + Spell(g[k + 1..])
  {
    assert g[k..][1..] == g[k + 1..];
  }

  lemma JoinLeft<T>(s: seq<T>, t0: seq<T>, t1: seq<T>, t2: seq<T>, t3: seq<T>,
                    t4: seq<T>, t5: seq<T>, t6: seq<T>, t7: seq<T>)
    requires s == t0 + (t1 + (t2 + (t3 + (t4 + (t5 + (t6 + (t7 + [])))))))
    ensures s == t0 + t1 + t2 + t3 + t4 + t5 + t6 + t7
  {
  }

  lemma SpellEight(g: seq<Byte>)
    requires |g| == 8
    ensures Spell(g) == GroupBits(g[0]) + GroupBits(g[1]) + GroupBits(g[2]) + GroupBits(g[3])
                      + GroupBits(g[4]) + GroupBits(g[5]) + GroupBits(g[6]) + GroupBits(g[7])
  {
    assert g[0..] == g && g[8..] == [];
    SpellHead(g, 0);
    SpellHead(g, 1);
    SpellHead(g, 2);
    SpellHead(g, 3);
    SpellHead(g, 4);
    SpellHead(g, 5);
    SpellHead(g, 6);
    SpellHead(g, 7);
    JoinLeft(Spell(g), GroupBits(g[0]), GroupBits(g[1]), GroupBits(g[2]), GroupBits(g[3]),
             GroupBits(g[4]), GroupBits(g[5]), GroupBits(g[6]), GroupBits(g[7]));
  }

  lemma BitsFive(b0: Byte, b1: Byte, b2: Byte, b3: Byte, b4: Byte)
    ensures Bits([b0, b1, b2, b3, b4]) == ByteBits(b0) + ByteBits(b1) + ByteBits(b2) + ByteBits(b3) + ByteBits(b4)
  {
    assert [b0, b1, b2, b3, b4] == [b0] + [b1] + [b2] + [b3] + [b4];
    BitsConcat([b0] + [b1] + [b2] + [b3], [b4]);
    BitsConcat([b0] + [b1] + [b2], [b3]);
    BitsConcat([b0] + [b1], [b2]);
    BitsConcat([b0], [b1]);
  }

  function Quantum(d: seq<Byte>): (q: seq<Byte>)
    requires d != []
    ensures |q| == 5
  {
    [d[0], ByteAt(d, 1), ByteAt(d, 2), ByteAt(d, 3), ByteAt(d, 4)]
  }

  lemma FirstQuantumSpells(d: seq<Byte>)
    requires d != []
    ensures Spell(AllGroups(d)) == Bits(Quantum(d)) + Spell(AllGroups(if |d| <= 5 then [] else d[5..]))
  {
    var q := Quantum(d);
    var g := Groups(q[0], q[1], q[2], q[3], q[4]);
    var rest := AllGroups(if |d| <= 5 then [] else d[5..]);
    assert AllGroups(d) == g + rest;
    SpellConcat(g, rest);
    QuantumKeepsBits(q[0], q[1], q[2], q[3], q[4]);
    assert q == [q[0], q[1], q[2], q[3], q[4]];
  }

  /** The groups of a byte string spell its bits, followed only by filling. */
  lemma {:induction false} GroupsSpellBits(d: seq<Byte>)
    ensures 8 * |d| <= |Spell(AllGroups(d))| && Spell(AllGroups(d))[..8 * |d|] == Bits(d)
    decreases |d|
  {
    if d != [] {
      var q := Quantum(d);
      FirstQuantumSpells(d);
      if |d| <= 5 {
        assert q == d + q[|d|..];
        BitsConcat(d, q[|d|..]);
      } else {
        assert d == q + d[5..];
        BitsConcat(q, d[5..]);
        GroupsSpellBits(d[5..]);
      }
    }
  }

  /** The "foobar" vector of section 10 of RFC 4648, which pins alphabet and letter order. */
  lemma Rfc4648Vector()
    ensures Base32NoPad([0x66, 0x6f, 0x6f, 0x62, 0x61, 0x72]) == "mzxw6ytboi"
  {
    var d: seq<Byte> := [0x66, 0x6f, 0x6f, 0x62, 0x61, 0x72];
    assert d[5..] == [0x72];
    assert AllGroups(d[5..]) == [14, 8, 0, 0, 0, 0, 0, 0];
    assert AllGroups(d) == [12, 25, 23, 22, 30, 24, 19, 1] + [14, 8, 0, 0, 0, 0, 0, 0];
    FooLetters();
    assert Base32NoPad(d) == Letters([12, 25, 23, 22, 30, 24, 19, 1] + [14, 8, 0, 0, 0, 0, 0, 0])[..10];
  }

  /** The letters of those groups, spelled out. */
  lemma FooLetters()
    ensures Letters([12, 25, 23, 22, 30, 24, 19, 1] + [14, 8, 0, 0, 0, 0, 0, 0]) == "mzxw6ytboiaaaaaa"
  {
    forall v: Byte | v < 32
      ensures Letter(v) as int == v as int + (if v < 26 then 97 else 24)
    {
      LetterCodes(v);
    }
    assert Letter(12) == 'm' && Letter(25) == 'z' && Letter(23) == 'x' && Letter(22) == 'w';
    assert Letter(30) == '6' && Letter(24) == 'y' && Letter(19) == 't' && Letter(1) == 'b';
    assert Letter(14) == 'o' && Letter(8) == 'i' && Letter(0) == 'a';
  }

  // ----- the two ids -----

  const CHUNK_PREFIX := "chk_"
  const SUFFIX_LENGTH := 26

  function Suffix(d: Digest): string {
    Base32NoPad(d)[..SUFFIX_LENGTH]
  }

  function DeriveChunkId(hash: string -> Digest, k: ChunkKey): string {
    CHUNK_PREFIX + Suffix(hash(CanonicalString(k)))
  }

  function DerivePointId(hash: string -> Digest, k: ChunkKey): seq<Byte> {
    hash(CanonicalString(k))[..16]
  }

  /** 4 + 26 characters for every input, not the 32 of the derivation's own description. */
  lemma ChunkIdLength(hash: string -> Digest, k: ChunkKey)
    ensures |DeriveChunkId(hash, k)| == 30 && DeriveChunkId(hash, k)[..4] == "chk_"
  {
    assert |Suffix(hash(CanonicalString(k)))| == SUFFIX_LENGTH;
  }

  lemma {:induction false} LettersInjective(g: seq<Byte>, h: seq<Byte>)
    requires |g| == |h| && forall i | 0 <= i < |g| :: g[i] < 32 && h[i] < 32
    ensures Letters(g) == Letters(h) <==> g == h
  {
    if Letters(g) == Letters(h) {
      forall i | 0 <= i < |g|
        ensures g[i] == h[i]
      {
        assert Letters(g)[i] == Letters(h)[i];
        LetterInjective(g[i], h[i]);
      }
    }
  }

  lemma SuffixGroups(d: Digest)
    ensures Suffix(d) == Letters(AllGroups(d)[..26])
    ensures Spell(AllGroups(d)[..26]) == Bits(d)[..130]
  {
    var g := AllGroups(d);
    assert g == g[..26] + g[26..];
    SpellConcat(g[..26], g[26..]);
    GroupsSpellBits(d);
  }

  /** The 26 letters agree exactly when the first 130 bits agree. */
  lemma SuffixIsFirst130Bits(d: Digest, e: Digest)
    ensures Suffix(d) == Suffix(e) <==> Bits(d)[..130] == Bits(e)[..130]
  {
    SuffixGroups(d);
    SuffixGroups(e);
    var g, h := AllGroups(d)[..26], AllGroups(e)[..26];
    LettersInjective(g, h);
    if Spell(g) == Spell(h) {
      SpellInjective(g, h);
    }
  }

  lemma TopTwoBits(x: Byte, y: Byte)
    ensures x >> 6 == y >> 6 <==> ByteBits(x)[..2] == ByteBits(y)[..2]
  {
    var s, t := ByteBits(x)[..2], ByteBits(y)[..2];
    assert s == t <==> s[0] == t[0] && s[1] == t[1];
  }

  lemma First130Bits(d: Digest)
    ensures Bits(d)[..130] == Bits(d[..16]) + ByteBits(d[16])[..2]
  {
    assert d == d[..16] + ([d[16]] + d[17..]);
    BitsConcat(d[..16], [d[16]] + d[17..]);
    BitsConcat([d[16]], d[17..]);
    assert Bits([d[16]]) == ByteBits(d[16]);
  }

  /** In bytes: the first sixteen, and the top two bits of the seventeenth. */
  lemma SuffixInBytes(d: Digest, e: Digest)
    ensures Suffix(d) == Suffix(e) <==> d[..16] == e[..16] && d[16] >> 6 == e[16] >> 6
  {
    SuffixIsFirst130Bits(d, e);
    First130Bits(d);
    First130Bits(e);
    TopTwoBits(d[16], e[16]);
    if Bits(d)[..130] == Bits(e)[..130] {
      assert Bits(d[..16]) == Bits(d)[..130][..128] && Bits(e[..16]) == Bits(e)[..130][..128];
      assert ByteBits(d[16])[..2] == Bits(d)[..130][128..] && ByteBits(e[16])[..2] == Bits(e)[..130][128..];
      BitsInjective(d[..16], e[..16]);
    }
  }

  /**
   The chunk id determines the point id. The converse, which the module promises by calling
   the two "1:1", holds exactly when two more digest bits agree.
   */
  lemma ChunkIdVersusPointId(hash: string -> Digest, a: ChunkKey, b: ChunkKey)
    ensures DeriveChunkId(hash, a) == DeriveChunkId(hash, b)
       <==> DerivePointId(hash, a) == DerivePointId(hash, b)
            && hash(CanonicalString(a))[16] >> 6 == hash(CanonicalString(b))[16] >> 6
  {
    var d, e := hash(CanonicalString(a)), hash(CanonicalString(b));
    assert DeriveChunkId(hash, a)[4..] == Suffix(d) && DeriveChunkId(hash, b)[4..] == Suffix(e);
    SuffixInBytes(d, e);
  }

  function Completion(point: seq<Byte>, top: Byte): Digest
    requires |point| == 16 && top < 4
  {
    var tail: seq<Byte> := seq(15, _ => 0);
    point + [top << 6] + tail
  }

  /** The suffixes that digests starting with the given sixteen bytes can have. */
  function SuffixesOf(point: seq<Byte>): set<string>
    requires |point| == 16
  {
    {Suffix(Completion(point, 0)), Suffix(Completion(point, 1)),
     Suffix(Completion(point, 2)), Suffix(Completion(point, 3))}
  }

  lemma CompletionShape(point: seq<Byte>, top: Byte)
    requires |point| == 16 && top < 4
    ensures Completion(point, top)[..16] == point && Completion(point, top)[16] >> 6 == top
  {
  }

  lemma CompletionsDiffer(point: seq<Byte>, t: Byte, u: Byte)
    requires |point| == 16 && t < 4 && u < 4 && t != u
    ensures Completion(point, t)[..16] == point && Completion(point, u)[..16] == point
    ensures Suffix(Completion(point, t)) != Suffix(Completion(point, u))
  {
    CompletionShape(point, t);
    CompletionShape(point, u);
    SuffixInBytes(Completion(point, t), Completion(point, u));
  }

  lemma SuffixIsACompletion(point: seq<Byte>, d: Digest)
    requires |point| == 16 && d[..16] == point
    ensures Suffix(d) in SuffixesOf(point)
  {
    var top := d[16] >> 6;
    CompletionShape(point, top);
    SuffixInBytes(d, Completion(point, top));
    assert top == 0 || top == 1 || top == 2 || top == 3;
  }

  /** Exactly four chunk-id suffixes share each point id, and every one of them occurs. */
  lemma FourSuffixesPerPointId(point: seq<Byte>)
    requires |point| == 16
    ensures |SuffixesOf(point)| == 4
    ensures forall d: Digest | d[..16] == point :: Suffix(d) in SuffixesOf(point)
    ensures forall s | s in SuffixesOf(point) :: exists d: Digest :: d[..16] == point && Suffix(d) == s
  {
    CompletionsDiffer(point, 0, 1);
    CompletionsDiffer(point, 0, 2);
    CompletionsDiffer(point, 0, 3);
    CompletionsDiffer(point, 1, 2);
    CompletionsDiffer(point, 1, 3);
    CompletionsDiffer(point, 2, 3);
    forall d: Digest | d[..16] == point
      ensures Suffix(d) in SuffixesOf(point)
    {
      SuffixIsACompletion(point, d);
    }
    var s0, s1, s2, s3 := Suffix(Completion(point, 0)), Suffix(Completion(point, 1)),
                          Suffix(Completion(point, 2)), Suffix(Completion(point, 3));
    assert s0 != s1 && s0 != s2 && s0 != s3 && s1 != s2 && s1 != s3 && s2 != s3;
    assert |{s0}| == 1 && |{s0, s1}| == 2 && |{s0, s1, s2}| == 3;
  }

  /** End to end: when no two digests in use share their first 130 bits, ids identify chunks. */
  lemma ChunkIdsIdentifyChunks(hash: string -> Digest, a: ChunkKey, b: ChunkKey)
    requires HeadFieldsFree(a) && HeadFieldsFree(b)
    requires Suffix(hash(CanonicalString(a))) == Suffix(hash(CanonicalString(b)))
         ==> CanonicalString(a) == CanonicalString(b)
    ensures DeriveChunkId(hash, a) == DeriveChunkId(hash, b) <==> a == b
  {
    var d, e := hash(CanonicalString(a)), hash(CanonicalString(b));
    assert DeriveChunkId(hash, a)[4..] == Suffix(d) && DeriveChunkId(hash, b)[4..] == Suffix(e);
    if DeriveChunkId(hash, a) == DeriveChunkId(hash, b) {
      CanonicalInjective(a, b);
    }
  }
}
