/**
 * The text form of a SHA-512 crypt digest: bytes taken in a fixed order, three at a time, written as four
 * characters of six bits each, and the last byte as two.
 */
module ShaCrypt {
  import opened Prelude

  type Byte = b: int | 0 <= b < 256

  const DIGITS: string := "./0123456789"
  const UPPER: string := "ABCDEFGHIJKLMNOPQRSTUVWXYZ"
  const LOWER: string := "abcdefghijklmnopqrstuvwxyz"
  const ALPHABET: string := DIGITS + UPPER + LOWER

  const ORDER: seq<(nat, nat, nat)> := [
    (0, 21, 42), (22, 43, 1), (44, 2, 23), (3, 24, 45), (25, 46, 4), (47, 5, 26),
    (6, 27, 48), (28, 49, 7), (50, 8, 29), (9, 30, 51), (31, 52, 10), (53, 11, 32),
    (12, 33, 54), (34, 55, 13), (56, 14, 35), (15, 36, 57), (37, 58, 16), (59, 17, 38),
    (18, 39, 60), (40, 61, 19), (62, 20, 41)]

  // ---------- six bits a character ----------

  /** The place of a character in the alphabet, computed from its code. */
  function Digit(c: char): int {
    if '.' <= c <= '9' then c as int - '.' as int
    else if 'A' <= c <= 'Z' then c as int - 'A' as int + 12
    else if 'a' <= c <= 'z' then c as int - 'a' as int + 38
    else -1
  }

  lemma AlphabetInOrder()
    ensures |DIGITS| == 12 && |UPPER| == 26 && |LOWER| == 26
    ensures forall d :: 0 <= d < 12 ==> DIGITS[d] as int == '.' as int + d
    ensures forall d :: 0 <= d < 26 ==> UPPER[d] as int == 'A' as int + d
    ensures forall d :: 0 <= d < 26 ==> LOWER[d] as int == 'a' as int + d
  {
  }

  lemma DigitOfLetter(d: nat)
    requires d < 64
    ensures |ALPHABET| == 64 && Digit(ALPHABET[d]) == d
  {
    AlphabetInOrder();
    if d < 12 {
      assert ALPHABET[d] == DIGITS[d];
    } else if d < 38 {
      assert ALPHABET[d] == UPPER[d - 12];
    } else {
      assert ALPHABET[d] == LOWER[d - 38];
    }
  }

  function Letter(d: nat): (c: char)
    requires d < 64
    ensures Digit(c) == d
  {
    DigitOfLetter(d);
    ALPHABET[d]
  }

  function B64(value: nat, n: nat): (s: string)
    ensures |s| == n
    decreases n
  {
    if n == 0 then "" else [Letter(value % 64)] + B64(value / 64, n - 1)
  }

  /** The low six bits first, as the source does it. */
  method WriteB64(value: nat, n: nat) returns (out: string)
    ensures out == B64(value, n)
  {
    out := "";
    var rest := value;
    for k := 0 to n
      invariant out + B64(rest, n - k) == B64(value, n)
    {
      assert out + ([Letter(rest % 64)] + B64(rest / 64, n - k - 1))
             == out + [Letter(rest % 64)] + B64(rest / 64, n - k - 1);
      out := out + [Letter(rest % 64)];
      rest := rest / 64;
    }
    assert out + "" == out;
  }

  function ReadB64(s: string): int {
    if s == "" then 0 else Digit(s[0]) + 64 * ReadB64(s[1..])
  }

  function Power64(n: nat): nat {
    if n == 0 then 1 else 64 * Power64(n - 1)
  }

  lemma {:induction false} ReadBack(value: nat, n: nat)
    requires value < Power64(n)
    ensures ReadB64(B64(value, n)) == value
    decreases n
  {
    if n > 0 {
      ReadBack(value / 64, n - 1);
      assert B64(value, n)[1..] == B64(value / 64, n - 1);
    }
  }

  // ---------- the order of the bytes ----------

  /** The regular shape of the order: triple k holds bytes k, k + 21 and k + 42, turned k places to the left. */
  function Turned(k: nat): (nat, nat, nat) {
    if k % 3 == 0 then (k, k + 21, k + 42)
    else if k % 3 == 1 then (k + 21, k + 42, k)
    else (k + 42, k, k + 21)
  }

  lemma OrderIsTurned(k: nat)
    requires k < 21
    ensures |ORDER| == 21 && ORDER[k] == Turned(k)
  {
    if k < 7 {
      assert ORDER[..7] == [(0, 21, 42), (22, 43, 1), (44, 2, 23), (3, 24, 45), (25, 46, 4), (47, 5, 26), (6, 27, 48)];
    } else if k < 14 {
      assert ORDER[7..14] == [(28, 49, 7), (50, 8, 29), (9, 30, 51), (31, 52, 10), (53, 11, 32), (12, 33, 54), (34, 55, 13)];
    } else {
      assert ORDER[14..21]
             == [(56, 14, 35), (15, 36, 57), (37, 58, 16), (59, 17, 38), (18, 39, 60), (40, 61, 19), (62, 20, 41)];
    }
  }

  function Slot(t: (nat, nat, nat), slot: nat): nat
    requires slot < 3
  {
    if slot == 0 then t.0 else if slot == 1 then t.1 else t.2
  }

  /** Where a byte stands: its triple and its slot in it. */
  function Place(i: nat): (nat, nat)
    requires i < 63
  {
    (i % 21, (i / 21 + 2 * (i % 21)) % 3)
  }

  /** The order and the last byte together name each of the 64 bytes exactly once. */
  lemma OrderIsAPermutation()
    ensures |ORDER| == 21
    ensures forall i :: 0 <= i < 63 ==> Place(i).0 < 21 && Slot(ORDER[Place(i).0], Place(i).1) == i
    ensures forall k, slot :: 0 <= k < 21 && 0 <= slot < 3 ==>
              var i := Slot(ORDER[k], slot); i < 63 && Place(i) == (k, slot)
  {
    OrderIsTurned(0);
    forall i | 0 <= i < 63 ensures Slot(ORDER[Place(i).0], Place(i).1) == i {
      OrderIsTurned(i % 21);
      PlaceInTurned(i);
    }
    forall k, slot | 0 <= k < 21 && 0 <= slot < 3 ensures var i := Slot(ORDER[k], slot); i < 63 && Place(i) == (k, slot) {
      OrderIsTurned(k);
      TurnedInPlace(k, slot);
    }
  }

  lemma PlaceInTurned(i: nat)
    requires i < 63
    ensures Slot(Turned(i % 21), (i / 21 + 2 * (i % 21)) % 3) == i
  {
    var k, r := i % 21, i / 21;
    assert i == 21 * r + k && r < 3;
  }

  lemma TurnedInPlace(k: nat, slot: nat)
    requires k < 21 && slot < 3
    ensures var i := Slot(Turned(k), slot); i < 63 && i % 21 == k && (i / 21 + 2 * (i % 21)) % 3 == slot
  {
    var r := (slot + k) % 3;
    assert Slot(Turned(k), slot) == 21 * r + k;
    assert (r + 2 * k) % 3 == slot;
  }

  // ---------- the digest ----------

  /** Three bytes in 24 bits, the first on top. */
  function Packed(a: Byte, b: Byte, c: Byte): (v: nat)
    ensures v < Power64(4)
  {
    assert Power64(4) == 64 * (64 * (64 * (64 * Power64(0))));
    a * 65536 + b * 256 + c
  }

  function Quad(digest: seq<Byte>, k: nat): string
    requires |digest| == 64 && k < 21
  {
    OrderIsTurned(k);
    B64(Packed(digest[ORDER[k].0], digest[ORDER[k].1], digest[ORDER[k].2]), 4)
  }

  function Groups(digest: seq<Byte>): (g: seq<string>)
    requires |digest| == 64
    ensures |g| == 21 && forall k :: 0 <= k < 21 ==> g[k] == Quad(digest, k) && |g[k]| == 4
  {
    seq(21, k requires 0 <= k < 21 => Quad(digest, k))
  }

  function Concat(groups: seq<string>): string {
    if groups == [] then "" else Concat(groups[..|groups| - 1]) + groups[|groups| - 1]
  }

  /** In groups of four, every group stands at four times its index. */
  lemma {:induction false} GroupInConcat(groups: seq<string>)
    requires forall k :: 0 <= k < |groups| ==> |groups[k]| == 4
    ensures |Concat(groups)| == 4 * |groups|
    ensures forall k :: 0 <= k < |groups| ==> Concat(groups)[4 * k..4 * k + 4] == groups[k]
  {
    if groups != [] {
      var front := groups[..|groups| - 1];
      GroupInConcat(front);
      forall k | 0 <= k < |groups| ensures Concat(groups)[4 * k..4 * k + 4] == groups[k] {
        if k < |front| {
          assert Concat(groups)[4 * k..4 * k + 4] == Concat(front)[4 * k..4 * k + 4];
        }
      }
    }
  }

  function Encoded(digest: seq<Byte>): (s: string)
    requires |digest| == 64
    ensures |s| == 86
  {
    GroupInConcat(Groups(digest));
    Concat(Groups(digest)) + B64(digest[63], 2)
  }

  method EncodeTriple(digest: seq<Byte>, k: nat) returns (group: string)
    requires |digest| == 64 && k < 21
    ensures group == Quad(digest, k)
  {
    OrderIsTurned(k);
    var (x, y, z) := ORDER[k];
    group := WriteB64(Packed(digest[x], digest[y], digest[z]), 4);
  }

  method Encode(digest: seq<Byte>) returns (out: string)
    requires |digest| == 64
    ensures out == Encoded(digest)
  {
    out := "";
    ghost var groups := Groups(digest);
    for k := 0 to 21
      invariant out == Concat(groups[..k])
    {
      var group := EncodeTriple(digest, k);
      out := out + group;
      assert groups[..k + 1][..k] == groups[..k];
    }
    assert groups[..21] == groups;
    var tail := WriteB64(digest[63], 2);
    out := out + tail;
  }

  function Unpacked(v: int, slot: nat): int
    requires slot < 3
  {
    if slot == 0 then v / 65536 else if slot == 1 then v / 256 % 256 else v % 256
  }

  /** The i-th byte, read from the text. */
  function DecodedByte(s: string, i: nat): int
    requires |s| == 86 && i < 64
  {
    if i == 63 then ReadB64(s[84..86])
    else Unpacked(ReadB64(s[4 * Place(i).0..4 * Place(i).0 + 4]), Place(i).1)
  }

  lemma UnpackPacked(a: Byte, b: Byte, c: Byte)
    ensures Unpacked(Packed(a, b, c), 0) == a && Unpacked(Packed(a, b, c), 1) == b && Unpacked(Packed(a, b, c), 2) == c
  {
    var v := Packed(a, b, c);
    assert v == (a * 256 + b) * 256 + c;
    assert v / 256 == a * 256 + b;
    assert v == a * 65536 + (b * 256 + c);
  }

  /** The 24 bits of the k-th triple. */
  function Triple(digest: seq<Byte>, k: nat): (v: nat)
    requires |digest| == 64 && k < 21
    ensures v < Power64(4)
  {
    var (x, y, z) := Turned(k);
    Packed(digest[x], digest[y], digest[z])
  }

  lemma QuadReads(digest: seq<Byte>, k: nat)
    requires |digest| == 64 && k < 21
    ensures ReadB64(Quad(digest, k)) == Triple(digest, k)
  {
    OrderIsTurned(k);
    ReadBack(Triple(digest, k), 4);
  }

  lemma TripleHolds(digest: seq<Byte>, i: nat)
    requires |digest| == 64 && i < 63
    ensures Unpacked(Triple(digest, i % 21), Place(i).1) == digest[i]
  {
    var (x, y, z) := Turned(i % 21);
    UnpackPacked(digest[x], digest[y], digest[z]);
    PlaceInTurned(i);
  }

  /** A text of 21 readable groups and a readable tail gives back every byte. */
  lemma TextGivesBytes(groups: seq<string>, tail: string, digest: seq<Byte>, i: nat)
    requires |groups| == 21 && |tail| == 2 && |digest| == 64 && i < 64
    requires forall k :: 0 <= k < 21 ==> |groups[k]| == 4 && ReadB64(groups[k]) == Triple(digest, k)
    requires ReadB64(tail) == digest[63]
    ensures |Concat(groups)| == 84 && DecodedByte(Concat(groups) + tail, i) == digest[i]
  {
    GroupInConcat(groups);
    var s := Concat(groups) + tail;
    if i == 63 {
      assert s[84..86] == tail;
    } else {
      var k := i % 21;
      assert s[4 * k..4 * k + 4] == Concat(groups)[4 * k..4 * k + 4] == groups[k];
      TripleHolds(digest, i);
    }
  }

  /** Every byte of every digest can be read back from the 86 characters. */
  lemma EncodingIsInvertible(digest: seq<Byte>, i: nat)
    requires |digest| == 64 && i < 64
    ensures DecodedByte(Encoded(digest), i) == digest[i]
  {
    forall k | 0 <= k < 21 ensures |Groups(digest)[k]| == 4 && ReadB64(Groups(digest)[k]) == Triple(digest, k) {
      QuadReads(digest, k);
    }
    TailReads(digest[63]);
    TextGivesBytes(Groups(digest), B64(digest[63], 2), digest, i);
  }

  lemma TailReads(last: Byte)
    ensures ReadB64(B64(last, 2)) == last
  {
    assert Power64(2) == 64 * (64 * Power64(0));
    ReadBack(last, 2);
  }

  /** So different digests have different texts. */
  lemma EncodingIsInjective(a: seq<Byte>, b: seq<Byte>)
    requires |a| == 64 && |b| == 64
    ensures Encoded(a) == Encoded(b) ==> a == b
  {
    forall i | 0 <= i < 64 ensures Encoded(a) == Encoded(b) ==> a[i] == b[i] {
      EncodingIsInvertible(a, i);
      EncodingIsInvertible(b, i);
    }
  }

  // ---------- stretching a digest ----------

  function Times(digest: seq<Byte>, n: nat): seq<Byte> {
    if n == 0 then [] else digest + Times(digest, n - 1)
  }

  function Repeat(digest: seq<Byte>, length: nat): seq<Byte>
    requires |digest| == 64
  {
    Times(digest, length / 64) + digest[..length % 64]
  }

  lemma {:induction false} TimesIsCyclic(digest: seq<Byte>, n: nat)
    requires |digest| == 64
    ensures |Times(digest, n)| == 64 * n
    ensures forall j :: 0 <= j < 64 * n ==> Times(digest, n)[j] == digest[j % 64]
  {
    if n > 0 {
      TimesIsCyclic(digest, n - 1);
      forall j | 0 <= j < 64 * n ensures Times(digest, n)[j] == digest[j % 64] {
        if j >= 64 {
          assert Times(digest, n)[j] == Times(digest, n - 1)[j - 64];
          assert (j - 64) % 64 == j % 64;
        }
      }
    }
  }

  /** Exactly the length asked for, and cyclic. */
  lemma RepeatIsCyclic(digest: seq<Byte>, length: nat)
    requires |digest| == 64
    ensures |Repeat(digest, length)| == length
    ensures forall j :: 0 <= j < length ==> Repeat(digest, length)[j] == digest[j % 64]
  {
    TimesIsCyclic(digest, length / 64);
    forall j | 0 <= j < length ensures Repeat(digest, length)[j] == digest[j % 64] {
      var whole := 64 * (length / 64);
      if j >= whole {
        assert j % 64 == j - whole;
      }
    }
  }
}
