/** What hashIndex (v1/im.go:81-85) does to a user ID before taking it modulo
    the pool count: the string's bytes ([]byte(id), Go strings are UTF-8) are
    hashed with 32-bit FNV-1a (Fowler-Noll-Vo, section 2 of the IETF draft
    draft-eastlake-fnv). */
module Fnv {
  import opened Wire

  const OffsetBasis32: bv32 := 2166136261
  const Prime32: bv32 := 16777619

  /** A continuation byte 10xxxxxx carrying the low six bits of x. */
  function Continuation(x: nat): (b: byte)
    ensures 0x80 <= b as int < 0xC0
  {
    (0x80 + x % 0x40) as byte
  }

  /** A leading byte: the length marker with the top bits of the value. */
  function Leading(marker: nat, top: nat): (b: byte)
    requires marker + top < 0x100
    ensures b as int - top == marker
  {
    (marker + top) as byte
  }

  /** UTF-8 encoding of one Unicode scalar value: one byte below 0x80, two
      below 0x800, three below 0x10000, four above; the first byte carries
      the length marker 0xxxxxxx, 110xxxxx, 1110xxxx or 11110xxx, and every
      further byte is a continuation byte 10xxxxxx. */
  function EncodeRune(c: char): (b: seq<byte>)
    ensures 1 <= |b| <= 4
    ensures |b| == 1 <==> c as int < 0x80
    ensures |b| == 2 <==> 0x80 <= c as int < 0x800
    ensures |b| == 3 <==> 0x800 <= c as int < 0x1_0000
    ensures |b| == 1 ==> b[0] as int == c as int
    ensures |b| == 2 ==> 0xC0 <= b[0] as int < 0xE0
    ensures |b| == 3 ==> 0xE0 <= b[0] as int < 0xF0
    ensures |b| == 4 ==> 0xF0 <= b[0] as int < 0xF8
    ensures forall i :: 1 <= i < |b| ==> 0x80 <= b[i] as int < 0xC0
  {
    var v := c as int;
    if v < 0x80 then
      [v as byte]
    else if v < 0x800 then
      [Leading(0xC0, v / 0x40), Continuation(v)]
    else if v < 0x1_0000 then
      [Leading(0xE0, v / 0x1000), Continuation(v / 0x40), Continuation(v)]
    else
      [Leading(0xF0, v / 0x4_0000), Continuation(v / 0x1000), Continuation(v / 0x40), Continuation(v)]
  }

  /** []byte(s) */
  function Utf8(s: string): (b: seq<byte>)
    ensures |s| <= |b| <= 4 * |s|
  {
    if s == [] then [] else EncodeRune(s[0]) + Utf8(s[1..])
  }

  /** A string of ASCII characters is its own byte sequence. */
  lemma {:induction false} Utf8Ascii(s: string)
    requires forall i :: 0 <= i < |s| ==> s[i] as int < 0x80
    ensures |Utf8(s)| == |s|
    ensures forall i :: 0 <= i < |s| ==> Utf8(s)[i] as int == s[i] as int
  {
    if s != [] {
      Utf8Ascii(s[1..]);
    }
  }

  /** []byte(a + b) == append([]byte(a), []byte(b)...) */
  lemma {:induction false} Utf8Append(a: string, b: string)
    ensures Utf8(a + b) == Utf8(a) + Utf8(b)
  {
    if a == [] {
      assert a + b == b;
    } else {
      assert (a + b)[0] == a[0] && (a + b)[1..] == a[1..] + b;
      calc {
        Utf8(a + b);
        EncodeRune(a[0]) + Utf8(a[1..] + b);
        { Utf8Append(a[1..], b); }
        EncodeRune(a[0]) + (Utf8(a[1..]) + Utf8(b));
        Utf8(a) + Utf8(b);
      }
    }
  }

  /** One FNV-1a round: XOR the octet into the low bits, then multiply by the
      prime modulo 2^32 (bv32 multiplication wraps). The prime, being odd,
      keeps the lowest bit of the XOR. */
  function Round(h: bv32, b: byte): (r: bv32)
    ensures r & 1 == (h ^ (b as bv32)) & 1
  {
    (h ^ (b as bv32)) * Prime32
  }

  /** The hash state after feeding `data` to a hash whose state is `h`,
      one octet at a time, first octet first. Read from the other end, it
      is the loop of hash/fnv's Write: the state after the last octet is
      one round applied to the state before it. */
  function Fold(h: bv32, data: seq<byte>): bv32
    decreases |data|
  {
    if data == [] then h else Fold(Round(h, data[0]), data[1..])
  }

  /** fnv.New32a(), Write(data), Sum32(): the fold started from the offset
      basis, so a fresh hash sums to the basis and every further octet is
      one more round. */
  function Fnv1a32(data: seq<byte>): bv32
  {
    Fold(OffsetBasis32, data)
  }

  /** h := fnv.New32a(); h.Write(data); h.Sum32(), with Write's loop over the
      octets: XOR each into the state, then multiply by the prime. */
  method Sum32(data: seq<byte>) returns (h: bv32)
    ensures h == Fnv1a32(data)
  {
    h := OffsetBasis32;
    var i := 0;
    while i < |data|
      invariant 0 <= i <= |data|
      invariant h == Fnv1a32(data[..i])
    {
      assert data[..i + 1] == data[..i] + [data[i]];
      FoldSnoc(OffsetBasis32, data[..i], data[i]);
      h := Round(h, data[i]);
      i := i + 1;
    }
    assert data[..i] == data;
  }

  /** The definition read from the other end: the hash of data + [b] is one
      more round applied to the hash of data. */
  lemma {:induction false} FoldSnoc(h: bv32, data: seq<byte>, b: byte)
    decreases |data|
    ensures Fold(h, data + [b]) == Round(Fold(h, data), b)
  {
    if data != [] {
      assert (data + [b])[1..] == data[1..] + [b];
      FoldSnoc(Round(h, data[0]), data[1..], b);
    }
  }

  /** Writing the bytes in two pieces gives the same state as writing them at
      once, so Sum32 does not depend on how Write splits its input. */
  lemma {:induction false} FoldAppend(h: bv32, a: seq<byte>, b: seq<byte>)
    decreases |a|
    ensures Fold(h, a + b) == Fold(Fold(h, a), b)
  {
    if a == [] {
      assert a + b == b;
    } else {
      assert (a + b)[1..] == a[1..] + b;
      FoldAppend(Round(h, a[0]), a[1..], b);
    }
  }

  /** Published FNV-1a 32-bit test vectors: "" and "a". */
  lemma TestVectors()
    ensures Fnv1a32([]) == 0x811c9dc5
    ensures Fnv1a32([0x61]) == 0xe40c292c
  {
    assert Fnv1a32([0x61]) == Round(OffsetBasis32, 0x61);
    assert (0x61 as byte) as bv32 == 0x61;
  }

  /** The hash depends on the order of the bytes: "ab" and "ba" differ. */
  lemma OrderSensitive()
    ensures Fnv1a32([0x61, 0x62]) != Fnv1a32([0x62, 0x61])
  {
    assert Fnv1a32([0x61, 0x62]) == Round(Round(OffsetBasis32, 0x61), 0x62);
    assert Fnv1a32([0x62, 0x61]) == Round(Round(OffsetBasis32, 0x62), 0x61);
  }
}
