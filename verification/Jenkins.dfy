/** The mixing function behind every user lookup: HASH_JEN over 32-bit words with wrap-around. */
module Jenkins {

  import opened Bits

  datatype Triple = Triple(a: word, b: word, c: word)

  /** One update of HASH_JEN_MIX: subtract the two other words, then fold in w. */
  function Fold(x: word, y: word, z: word, w: word): word { WordXor(WordSub(WordSub(x, y), z), w) }

  function Unfold(x: word, y: word, z: word, w: word): word { WordAdd(WordAdd(WordXor(x, w), z), y) }

  lemma UnfoldInvertsFold(x: word, y: word, z: word, w: word)
    ensures Unfold(Fold(x, y, z, w), y, z, w) == x
    ensures Fold(Unfold(x, y, z, w), y, z, w) == x
  {
    XorCancels(WordSub(WordSub(x, y), z), w);
    XorCancels(x, w);
  }

  function RowA(t: Triple, s: nat): Triple
  {
    t.(a := Fold(t.a, t.b, t.c, ShiftRight(t.c, s)))
  }

  function RowB(t: Triple, s: nat): Triple
  {
    t.(b := Fold(t.b, t.c, t.a, WordShiftLeft(t.a, s)))
  }

  function RowC(t: Triple, s: nat): Triple
  {
    t.(c := Fold(t.c, t.a, t.b, ShiftRight(t.b, s)))
  }

  function UndoA(t: Triple, s: nat): Triple
  {
    t.(a := Unfold(t.a, t.b, t.c, ShiftRight(t.c, s)))
  }

  function UndoB(t: Triple, s: nat): Triple
  {
    t.(b := Unfold(t.b, t.c, t.a, WordShiftLeft(t.a, s)))
  }

  function UndoC(t: Triple, s: nat): Triple
  {
    t.(c := Unfold(t.c, t.a, t.b, ShiftRight(t.b, s)))
  }

  /** Three lines of the mix, which is three of these rounds. */
  function Round(t: Triple, s: nat, l: nat, r: nat): Triple
  {
    RowC(RowB(RowA(t, s), l), r)
  }

  function UndoRound(t: Triple, s: nat, l: nat, r: nat): Triple
  {
    UndoA(UndoB(UndoC(t, r), l), s)
  }

  function Mix(t: Triple): Triple
  {
    Round(Round(Round(t, 13, 8, 13), 12, 16, 5), 3, 10, 15)
  }

  function Unmix(t: Triple): Triple
  {
    UndoRound(UndoRound(UndoRound(t, 3, 10, 15), 12, 16, 5), 13, 8, 13)
  }

  lemma RowAUndone(t: Triple, s: nat)
    ensures UndoA(RowA(t, s), s) == t && RowA(UndoA(t, s), s) == t
  {
    UnfoldInvertsFold(t.a, t.b, t.c, ShiftRight(t.c, s));
  }

  lemma RowBUndone(t: Triple, s: nat)
    ensures UndoB(RowB(t, s), s) == t && RowB(UndoB(t, s), s) == t
  {
    UnfoldInvertsFold(t.b, t.c, t.a, WordShiftLeft(t.a, s));
  }

  lemma RowCUndone(t: Triple, s: nat)
    ensures UndoC(RowC(t, s), s) == t && RowC(UndoC(t, s), s) == t
  {
    UnfoldInvertsFold(t.c, t.a, t.b, ShiftRight(t.b, s));
  }

  lemma RoundUndone(t: Triple, s: nat, l: nat, r: nat)
    ensures UndoRound(Round(t, s, l, r), s, l, r) == t
    ensures Round(UndoRound(t, s, l, r), s, l, r) == t
  {
    RowAUndone(t, s);
    RowBUndone(RowA(t, s), l);
    RowCUndone(RowB(RowA(t, s), l), r);
    RowCUndone(t, r);
    RowBUndone(UndoC(t, r), l);
    RowAUndone(UndoB(UndoC(t, r), l), s);
  }

  /** The mix is a bijection on triples of words: Unmix undoes its nine updates, from either side. */
  lemma MixIsBijective(t: Triple)
    ensures Unmix(Mix(t)) == t
    ensures Mix(Unmix(t)) == t
  {
    var t1 := Round(t, 13, 8, 13);
    var t2 := Round(t1, 12, 16, 5);
    RoundUndone(t, 13, 8, 13);
    RoundUndone(t1, 12, 16, 5);
    RoundUndone(t2, 3, 10, 15);
    var u1 := UndoRound(t, 3, 10, 15);
    var u2 := UndoRound(u1, 12, 16, 5);
    RoundUndone(t, 3, 10, 15);
    RoundUndone(u1, 12, 16, 5);
    RoundUndone(u2, 13, 8, 13);
  }

  lemma FoldIsXor(x: word, y: word, z: word, w: word)
    ensures Fold(x, y, z, w) == BitXor((x - y - z) % 0x1_0000_0000, w)
  {
  }

  lemma RightShift(x: word, s: nat, d: nat)
    requires d == Pow2(s)
    ensures ShiftRight(x, s) == x / d
  {
    ShiftIsDivision(x, s);
  }

  lemma LeftShift(x: word, s: nat, d: nat)
    requires d == Pow2(s)
    ensures WordShiftLeft(x, s) == x * d % 0x1_0000_0000
  {
    LeftShiftIsProduct(x, s);
  }

  lemma RoundUpdates(t: Triple, s: nat, l: nat, r: nat)
    ensures var u := Round(t, s, l, r);
            && u.a == BitXor((t.a - t.b - t.c) % 0x1_0000_0000, ShiftRight(t.c, s))
            && u.b == BitXor((t.b - t.c - u.a) % 0x1_0000_0000, WordShiftLeft(u.a, l))
            && u.c == BitXor((t.c - u.a - u.b) % 0x1_0000_0000, ShiftRight(u.b, r))
  {
    hide Fold, BitXor, ShiftRight, WordShiftLeft;
    var u := Round(t, s, l, r);
    FoldIsXor(t.a, t.b, t.c, ShiftRight(t.c, s));
    FoldIsXor(t.b, t.c, u.a, WordShiftLeft(u.a, l));
    FoldIsXor(t.c, u.a, u.b, ShiftRight(u.b, r));
  }

  lemma ShiftWidths()
    ensures Pow2(13) == 0x2000 && Pow2(8) == 0x100 && Pow2(12) == 0x1000 && Pow2(16) == 0x1_0000
    ensures Pow2(5) == 0x20 && Pow2(3) == 8 && Pow2(10) == 0x400 && Pow2(15) == 0x8000
  {
  }

  lemma FirstUpdates(t: Triple)
    ensures var u := Round(t, 13, 8, 13);
            && u.a == BitXor((t.a - t.b - t.c) % 0x1_0000_0000, t.c / 0x2000)
            && u.b == BitXor((t.b - t.c - u.a) % 0x1_0000_0000, u.a * 0x100 % 0x1_0000_0000)
            && u.c == BitXor((t.c - u.a - u.b) % 0x1_0000_0000, u.b / 0x2000)
  {
    hide Round, BitXor, Pow2, ShiftRight, WordShiftLeft;
    ShiftWidths();
    var u := Round(t, 13, 8, 13);
    RoundUpdates(t, 13, 8, 13);
    RightShift(t.c, 13, 0x2000);
    LeftShift(u.a, 8, 0x100);
    RightShift(u.b, 13, 0x2000);
  }

  lemma MiddleUpdates(t: Triple)
    ensures var u := Round(t, 12, 16, 5);
            && u.a == BitXor((t.a - t.b - t.c) % 0x1_0000_0000, t.c / 0x1000)
            && u.b == BitXor((t.b - t.c - u.a) % 0x1_0000_0000, u.a * 0x1_0000 % 0x1_0000_0000)
            && u.c == BitXor((t.c - u.a - u.b) % 0x1_0000_0000, u.b / 0x20)
  {
    hide Round, BitXor, Pow2, ShiftRight, WordShiftLeft;
    ShiftWidths();
    var u := Round(t, 12, 16, 5);
    RoundUpdates(t, 12, 16, 5);
    RightShift(t.c, 12, 0x1000);
    LeftShift(u.a, 16, 0x1_0000);
    RightShift(u.b, 5, 0x20);
  }

  lemma LastUpdates(t: Triple)
    ensures var u := Round(t, 3, 10, 15);
            && u.a == BitXor((t.a - t.b - t.c) % 0x1_0000_0000, t.c / 8)
            && u.b == BitXor((t.b - t.c - u.a) % 0x1_0000_0000, u.a * 0x400 % 0x1_0000_0000)
            && u.c == BitXor((t.c - u.a - u.b) % 0x1_0000_0000, u.b / 0x8000)
  {
    hide Round, BitXor, Pow2, ShiftRight, WordShiftLeft;
    ShiftWidths();
    var u := Round(t, 3, 10, 15);
    RoundUpdates(t, 3, 10, 15);
    RightShift(t.c, 3, 8);
    LeftShift(u.a, 10, 0x400);
    RightShift(u.b, 15, 0x8000);
  }

  /**
   * The nine updates of the mix in plain arithmetic: differences modulo 2^32, each folded with the quotient by a
   * power of two or with the product, modulo 2^32, by one.
   */
  lemma MixUpdates(t: Triple)
    ensures var a1 := BitXor((t.a - t.b - t.c) % 0x1_0000_0000, t.c / 0x2000);
            var b1 := BitXor((t.b - t.c - a1) % 0x1_0000_0000, a1 * 0x100 % 0x1_0000_0000);
            var c1 := BitXor((t.c - a1 - b1) % 0x1_0000_0000, b1 / 0x2000);
            var a2 := BitXor((a1 - b1 - c1) % 0x1_0000_0000, c1 / 0x1000);
            var b2 := BitXor((b1 - c1 - a2) % 0x1_0000_0000, a2 * 0x1_0000 % 0x1_0000_0000);
            var c2 := BitXor((c1 - a2 - b2) % 0x1_0000_0000, b2 / 0x20);
            var a3 := BitXor((a2 - b2 - c2) % 0x1_0000_0000, c2 / 8);
            var b3 := BitXor((b2 - c2 - a3) % 0x1_0000_0000, a3 * 0x400 % 0x1_0000_0000);
            var c3 := BitXor((c2 - a3 - b3) % 0x1_0000_0000, b3 / 0x8000);
            Mix(t).a == a3 && Mix(t).b == b3 && Mix(t).c == c3
  {
    hide Round, BitXor;
    var u := Round(t, 13, 8, 13);
    var v := Round(u, 12, 16, 5);
    FirstUpdates(t);
    MiddleUpdates(u);
    LastUpdates(v);
  }

  // ----- HASH_JEN over a key of bytes -----

  /** Key byte i; bytes beyond the key contribute nothing. */
  function At(key: seq<byte>, i: nat): byte
  {
    if i < |key| then key[i] else 0
  }

  /** Four consecutive key bytes as one little-endian word. */
  function LittleEndian(key: seq<byte>, i: nat): word
  {
    At(key, i) + 0x100 * At(key, i + 1) + 0x1_0000 * At(key, i + 2) + 0x100_0000 * At(key, i + 3)
  }

  /** The bytes of the short last block that go to c, whose lowest byte is left for the key length. */
  function LastBytes(rest: seq<byte>): word
  {
    0x100 * At(rest, 8) + 0x1_0000 * At(rest, 9) + 0x100_0000 * At(rest, 10)
  }

  /** A full block of twelve bytes, added to the three words. */
  function LoadBlock(t: Triple, key: seq<byte>): Triple
  {
    Triple(WordAdd(t.a, LittleEndian(key, 0)), WordAdd(t.b, LittleEndian(key, 4)), WordAdd(t.c, LittleEndian(key, 8)))
  }

  /** The short last block and the key length, added to the three words. */
  function LoadLast(t: Triple, rest: seq<byte>, keylen: word): Triple
  {
    Triple(WordAdd(t.a, LittleEndian(rest, 0)), WordAdd(t.b, LittleEndian(rest, 4)),
           WordAdd(WordAdd(t.c, keylen), LastBytes(rest)))
  }

  function JenFrom(t: Triple, key: seq<byte>, keylen: word): Triple
    decreases |key|
  {
    if |key| >= 12 then JenFrom(Mix(LoadBlock(t, key)), key[12..], keylen) else Mix(LoadLast(t, key, keylen))
  }

  const START: Triple := Triple(0x9e3779b9, 0x9e3779b9, 0xfeedbeef)

  /** The three words HASH_JEN ends in; the hash value is the last one. */
  function JenTriple(key: seq<byte>): Triple
    requires |key| < WORD
  {
    JenFrom(START, key, |key|)
  }

  /** HASH_JEN: full blocks of twelve bytes, then a switch that falls through the remaining bytes. */
  method HashJen(key: seq<byte>) returns (hashv: word)
    requires |key| < WORD
    ensures hashv == JenTriple(key).c == JenFrom(Triple(0x9e3779b9, 0x9e3779b9, 0xfeedbeef), key, |key|).c
  {
    hashv := 0xfeedbeef;
    var i: word, j: word := 0x9e3779b9, 0x9e3779b9;
    var rest, k := key, |key|;
    while k >= 12
      invariant k == |rest|
      invariant JenFrom(Triple(i, j, hashv), rest, |key|) == JenTriple(key)
    {
      ghost var t := Triple(i, j, hashv);
      i := WordAdd(i, LittleEndian(rest, 0));
      j := WordAdd(j, LittleEndian(rest, 4));
      hashv := WordAdd(hashv, LittleEndian(rest, 8));
      assert Triple(i, j, hashv) == LoadBlock(t, rest);
      var m := Mix(Triple(i, j, hashv));
      i, j, hashv := m.a, m.b, m.c;
      rest, k := rest[12..], k - 12;
    }
    hashv := WordAdd(hashv, |key|);
    hashv := AddLastBytes(hashv, rest);
    j := AddLittleEndian(j, rest, 4);
    i := AddLittleEndian(i, rest, 0);
    hashv := Mix(Triple(i, j, hashv)).c;
  }

  /** Cases 11 to 9 of the switch. */
  method AddLastBytes(c: word, rest: seq<byte>) returns (r: word)
    ensures r == WordAdd(c, LastBytes(rest))
  {
    r := c;
    if |rest| >= 11 { r := WordAdd(r, 0x100_0000 * rest[10] as int); }
    if |rest| >= 10 { r := WordAdd(r, 0x1_0000 * rest[9] as int); }
    if |rest| >= 9 { r := WordAdd(r, 0x100 * rest[8] as int); }
  }

  /** Cases i + 4 to i + 1 of the switch, for i = 4 and i = 0. */
  method AddLittleEndian(w: word, rest: seq<byte>, i: nat) returns (r: word)
    ensures r == WordAdd(w, LittleEndian(rest, i))
  {
    r := w;
    if |rest| >= i + 4 { r := WordAdd(r, 0x100_0000 * rest[i + 3] as int); }
    if |rest| >= i + 3 { r := WordAdd(r, 0x1_0000 * rest[i + 2] as int); }
    if |rest| >= i + 2 { r := WordAdd(r, 0x100 * rest[i + 1] as int); }
    if |rest| >= i + 1 { r := WordAdd(r, rest[i]); }
  }

  /** A full block of twelve bytes is added to the three words, which are mixed before the next one. */
  lemma FullBlock(t: Triple, key: seq<byte>, keylen: word, k: seq<int>, u: Triple)
    requires |key| >= 12 && k == key
    requires u.a == (t.a + k[0] + 0x100 * k[1] + 0x1_0000 * k[2] + 0x100_0000 * k[3]) % 0x1_0000_0000
    requires u.b == (t.b + k[4] + 0x100 * k[5] + 0x1_0000 * k[6] + 0x100_0000 * k[7]) % 0x1_0000_0000
    requires u.c == (t.c + k[8] + 0x100 * k[9] + 0x1_0000 * k[10] + 0x100_0000 * k[11]) % 0x1_0000_0000
    ensures JenFrom(t, key, keylen) == JenFrom(Mix(u), key[12..], keylen)
  {
    hide Mix, JenFrom, WordAdd, LittleEndian;
    BlockLoaded(t, key, k);
    assert u == LoadBlock(t, key);
    NextBlock(t, key, keylen);
  }

  lemma NextBlock(t: Triple, key: seq<byte>, keylen: word)
    requires |key| >= 12
    ensures JenFrom(t, key, keylen) == JenFrom(Mix(LoadBlock(t, key)), key[12..], keylen)
  {
    hide Mix, LoadBlock;
  }

  lemma BlockLoaded(t: Triple, key: seq<byte>, k: seq<int>)
    requires |key| >= 12 && k == key
    ensures LoadBlock(t, key).a == (t.a + k[0] + 0x100 * k[1] + 0x1_0000 * k[2] + 0x100_0000 * k[3]) % 0x1_0000_0000
    ensures LoadBlock(t, key).b == (t.b + k[4] + 0x100 * k[5] + 0x1_0000 * k[6] + 0x100_0000 * k[7]) % 0x1_0000_0000
    ensures LoadBlock(t, key).c == (t.c + k[8] + 0x100 * k[9] + 0x1_0000 * k[10] + 0x100_0000 * k[11]) % 0x1_0000_0000
  {
  }

  /** A short last block is filled up with zeros; in the third word its bytes stand one place higher, over the key length. */
  lemma LastBlock(t: Triple, key: seq<byte>, keylen: word, k: seq<int>, u: Triple)
    requires |key| < 12 && k == key + [0, 0, 0, 0, 0, 0, 0, 0, 0, 0, 0, 0]
    requires u.a == (t.a + k[0] + 0x100 * k[1] + 0x1_0000 * k[2] + 0x100_0000 * k[3]) % 0x1_0000_0000
    requires u.b == (t.b + k[4] + 0x100 * k[5] + 0x1_0000 * k[6] + 0x100_0000 * k[7]) % 0x1_0000_0000
    requires u.c == (t.c + keylen + 0x100 * k[8] + 0x1_0000 * k[9] + 0x100_0000 * k[10]) % 0x1_0000_0000
    ensures JenFrom(t, key, keylen) == Mix(u)
  {
    hide Mix;
    assert forall i :: 0 <= i < 12 ==> k[i] == At(key, i);
  }

  // ----- short keys never collide in all three words -----

  lemma MixInjective(t: Triple, t': Triple)
    requires t != t'
    ensures Mix(t) != Mix(t')
  {
    MixIsBijective(t);
    MixIsBijective(t');
  }

  lemma DigitsInjective(x: byte, y: byte, z: byte, w: byte, x': byte, y': byte, z': byte, w': byte)
    requires x + 0x100 * y + 0x1_0000 * z + 0x100_0000 * w == x' + 0x100 * y' + 0x1_0000 * z' + 0x100_0000 * w'
    ensures x == x' && y == y' && z == z' && w == w'
  {
  }

  lemma LittleEndianInjective(key: seq<byte>, key': seq<byte>, i: nat)
    requires |key| == |key'| && LittleEndian(key, i) == LittleEndian(key', i)
    ensures forall j :: i <= j < i + 4 && j < |key| ==> key[j] == key'[j]
  {
    DigitsInjective(At(key, i), At(key, i + 1), At(key, i + 2), At(key, i + 3),
                    At(key', i), At(key', i + 1), At(key', i + 2), At(key', i + 3));
  }

  lemma LastBytesInjective(key: seq<byte>, key': seq<byte>)
    requires |key| == |key'| && LastBytes(key) == LastBytes(key')
    ensures forall j :: 8 <= j < 11 && j < |key| ==> key[j] == key'[j]
  {
    DigitsInjective(0, At(key, 8), At(key, 9), At(key, 10), 0, At(key', 8), At(key', 9), At(key', 10));
  }

  lemma WordAddInjective(x: word, y: word, y': word)
    requires WordAdd(x, y) == WordAdd(x, y')
    ensures y == y'
  {
  }

  lemma LoadBlockInjective(t: Triple, key: seq<byte>, key': seq<byte>)
    requires |key| == |key'| == 12 && LoadBlock(t, key) == LoadBlock(t, key')
    ensures key == key'
  {
    WordAddInjective(t.a, LittleEndian(key, 0), LittleEndian(key', 0));
    WordAddInjective(t.b, LittleEndian(key, 4), LittleEndian(key', 4));
    WordAddInjective(t.c, LittleEndian(key, 8), LittleEndian(key', 8));
    LittleEndianInjective(key, key', 0);
    LittleEndianInjective(key, key', 4);
    LittleEndianInjective(key, key', 8);
  }

  lemma LoadLastInjective(t: Triple, key: seq<byte>, key': seq<byte>, keylen: word)
    requires |key| == |key'| < 12 && LoadLast(t, key, keylen) == LoadLast(t, key', keylen)
    ensures key == key'
  {
    WordAddInjective(t.a, LittleEndian(key, 0), LittleEndian(key', 0));
    WordAddInjective(t.b, LittleEndian(key, 4), LittleEndian(key', 4));
    WordAddInjective(WordAdd(t.c, keylen), LastBytes(key), LastBytes(key'));
    LittleEndianInjective(key, key', 0);
    LittleEndianInjective(key, key', 4);
    LastBytesInjective(key, key');
  }

  lemma LastBlocksApart(t: Triple, t': Triple, key: seq<byte>, key': seq<byte>)
    requires |key| == |key'| < 12
    requires LoadLast(t, key, |key|) != LoadLast(t', key', |key|)
    ensures JenFrom(t, key, |key|) != JenFrom(t', key', |key|)
  {
    MixInjective(LoadLast(t, key, |key|), LoadLast(t', key', |key|));
  }

  lemma AfterFullBlock(t: Triple, key: seq<byte>, u: Triple)
    requires |key| == 12 && u == Mix(LoadBlock(t, key))
    ensures JenFrom(t, key, 12) == JenFrom(u, [], 12)
  {
    assert key[12..] == [];
  }

  lemma FullBlocksApart(t: Triple, key: seq<byte>, key': seq<byte>, u: Triple, u': Triple)
    requires |key| == |key'| == 12 && key != key'
    requires u == Mix(LoadBlock(t, key)) && u' == Mix(LoadBlock(t, key'))
    ensures u != u'
  {
    if LoadBlock(t, key) == LoadBlock(t, key') { LoadBlockInjective(t, key, key'); }
    MixInjective(LoadBlock(t, key), LoadBlock(t, key'));
  }

  lemma EmptyLastBlocksApart(t: Triple, t': Triple, keylen: word)
    requires t != t'
    ensures JenFrom(t, [], keylen) != JenFrom(t', [], keylen)
  {
    assert LoadLast(t, [], keylen) != LoadLast(t', [], keylen);
    MixInjective(LoadLast(t, [], keylen), LoadLast(t', [], keylen));
  }

  /**
   * Two different keys of the same length, up to one full block, always end in different triples; the
   * 4-byte ids of the user table are the case that matters.
   */
  lemma ShortKeysEndApart(key: seq<byte>, key': seq<byte>)
    requires |key| == |key'| <= 12
    requires key != key'
    ensures JenTriple(key) != JenTriple(key')
  {
    if |key| == 12 {
      var u, u' := Mix(LoadBlock(START, key)), Mix(LoadBlock(START, key'));
      FullBlocksApart(START, key, key', u, u');
      EmptyLastBlocksApart(u, u', 12);
      AfterFullBlock(START, key, u);
      AfterFullBlock(START, key', u');
    } else {
      if LoadLast(START, key, |key|) == LoadLast(START, key', |key|) { LoadLastInjective(START, key, key', |key|); }
      LastBlocksApart(START, START, key, key');
    }
  }
}
