/** The table-driven base64 codec: `mcp_server_integrated/include/base64.hpp`, little-endian tables.

    Texts and data are byte strings. The reference definitions follow section 4 of RFC 4648: three
    octets form a 24-bit group, the group is read as four 6-bit values, missing octets count as zero
    and missing symbols become '='. The methods do what the code does: table look-ups, masks and a
    32-bit word whose low three bytes are the output. */
module Base64 {
  import opened Common

  const PAD: bv8 := 61

  /** Table 1 of RFC 4648: A-Z, a-z, 0-9, + and /. */
  function Symbol(v: bv8): bv8
    requires v < 64
  {
    if v < 26 then v + 65 else if v < 52 then v + 71 else if v < 62 then v - 4 else if v == 62 then 43 else 47
  }

  predicate IsSymbol(c: bv8) {
    65 <= c <= 90 || 97 <= c <= 122 || 48 <= c <= 57 || c == 43 || c == 47
  }

  /** The 6-bit value of a symbol; a padding sign stands for zero bits. */
  function ValueOf(c: bv8): (v: bv8)
    ensures v < 64
    ensures IsSymbol(c) ==> Symbol(v) == c
  {
    if 65 <= c <= 90 then c - 65
    else if 97 <= c <= 122 then c - 71
    else if 48 <= c <= 57 then c + 4
    else if c == 43 then 62
    else if c == 47 then 63
    else 0
  }

  lemma SymbolsAreDistinct(v: bv8)
    requires v < 64
    ensures IsSymbol(Symbol(v)) && ValueOf(Symbol(v)) == v && Symbol(v) != PAD
  {
  }

  /** The letters, digits and signs of Table 1 of RFC 4648, by the ends of its four runs. */
  lemma AlphabetIsTable1(v: bv8)
    requires v < 64
    ensures Symbol(0) as char == 'A' && Symbol(25) as char == 'Z'
    ensures Symbol(26) as char == 'a' && Symbol(51) as char == 'z'
    ensures Symbol(52) as char == '0' && Symbol(61) as char == '9'
    ensures Symbol(62) as char == '+' && Symbol(63) as char == '/'
    ensures v != 25 && v != 51 && v < 61 ==> Symbol(v + 1) == Symbol(v) + 1
    ensures PAD as char == '='
  {
  }

  // ------------------------------------------------------------------ the tables

  function EncodeTable0(t: bv8): bv8 { Symbol(t >> 2) }

  function EncodeTable1(t: bv8): bv8 { Symbol(t & 63) }

  const BAD_CHAR: bv32 := 0x01ffffff

  function Wide(c: bv8): bv32 { ValueOf(c) as bv32 }

  function DecodeTable0(c: bv8): bv32 { if IsSymbol(c) then Wide(c) << 2 else BAD_CHAR }

  function DecodeTable1(c: bv8): bv32 {
    if IsSymbol(c) then (Wide(c) >> 4) | ((Wide(c) & 15) << 12) else BAD_CHAR
  }

  function DecodeTable2(c: bv8): bv32 {
    if IsSymbol(c) then ((Wide(c) >> 2) << 8) | ((Wide(c) & 3) << 22) else BAD_CHAR
  }

  function DecodeTable3(c: bv8): bv32 { if IsSymbol(c) then Wide(c) << 16 else BAD_CHAR }

  /** The words that the decoder looks at: four symbols, or the three or two that precede padding. */
  function Word4(a: bv8, b: bv8, c: bv8, d: bv8): bv32 { Word3(a, b, c) | DecodeTable3(d) }

  function Word3(a: bv8, b: bv8, c: bv8): bv32 { Word2(a, b) | DecodeTable2(c) }

  function Word2(a: bv8, b: bv8): bv32 { DecodeTable0(a) | DecodeTable1(b) }

  predicate Bad(w: bv32) { w >= BAD_CHAR }

  /** Byte `j` of a 32-bit word in memory on a little-endian machine. */
  function MemoryByte(w: bv32, j: nat): bv8
    requires j < 3
  {
    (if j == 0 then w & 255 else if j == 1 then (w >> 8) & 255 else (w >> 16) & 255) as bv8
  }

  // ------------------------------------------------------------------ reference definitions

  /** The 24-bit group of three octets. */
  function Join(x: bv8, y: bv8, z: bv8): bv32 {
    ((x as bv32) << 16) | ((y as bv32) << 8) | (z as bv32)
  }

  function Sextet(g: bv32, j: nat): (v: bv8)
    requires j < 4
    ensures v < 64
  {
    ((if j == 0 then g >> 18 else if j == 1 then g >> 12 else if j == 2 then g >> 6 else g) & 63) as bv8
  }

  /** The 24-bit group of four 6-bit values. */
  function Gather(a: bv8, b: bv8, c: bv8, d: bv8): bv32 {
    ((a as bv32) << 18) | ((b as bv32) << 12) | ((c as bv32) << 6) | (d as bv32)
  }

  function Octet(g: bv32, j: nat): bv8
    requires j < 3
  {
    ((if j == 0 then g >> 16 else if j == 1 then g >> 8 else g) & 255) as bv8
  }

  /** Symbol `j` of three octets. */
  function SymbolOf(x: bv8, y: bv8, z: bv8, j: nat): bv8
    requires j < 4
  {
    Symbol(Sextet(Join(x, y, z), j))
  }

  /** Octet `j` of four symbols or padding signs. */
  function OctetOf(a: bv8, b: bv8, c: bv8, d: bv8, j: nat): bv8
    requires j < 3
  {
    Octet(Gather(ValueOf(a), ValueOf(b), ValueOf(c), ValueOf(d)), j)
  }

  function OrZero(b: seq<bv8>, i: nat): bv8 { if i < |b| then b[i] else 0 }

  /** Symbol `j` of group `k`: a group with only r octets has r + 1 symbols. */
  function CharAt(b: seq<bv8>, k: nat, j: nat): bv8
    requires j < 4
  {
    if 3 * k + j > |b| then PAD
    else SymbolOf(OrZero(b, 3 * k), OrZero(b, 3 * k + 1), OrZero(b, 3 * k + 2), j)
  }

  function EncodedSize(n: nat): nat { 4 * (n / 3 + (if n % 3 > 0 then 1 else 0)) }

  function Encoded(b: seq<bv8>): (t: seq<bv8>)
    ensures |t| == EncodedSize(|b|)
  {
    seq(EncodedSize(|b|), i requires 0 <= i < EncodedSize(|b|) => CharAt(b, i / 4, i % 4))
  }

  /** Symbols, then `p` padding signs. */
  predicate Shape(t: seq<bv8>, p: nat) {
    && p <= |t|
    && (forall i | 0 <= i < |t| - p :: IsSymbol(t[i]))
    && (forall i | |t| - p <= i < |t| :: t[i] == PAD)
  }

  /** Whole groups of symbols, the last one padded with at most two signs. */
  predicate WellFormed(t: seq<bv8>): (ok: bool)
    ensures ok ==> |t| % 4 == 0 && Padding(t) <= 2
  {
    |t| % 4 == 0 && (Shape(t, 0) || Shape(t, 1) || Shape(t, 2))
  }

  function PadCount(t: seq<bv8>): (p: nat)
    requires |t| >= 4
    ensures p <= 4
  {
    var n := |t|;
    (if t[n - 1] == PAD then 1 else 0) + (if t[n - 2] == PAD then 1 else 0)
    + (if t[n - 3] == PAD then 1 else 0) + (if t[n - 4] == PAD then 1 else 0)
  }

  function Padding(t: seq<bv8>): (p: nat)
    ensures p <= |t|
  {
    if |t| < 4 then 0 else PadCount(t)
  }

  function OctetAt(t: seq<bv8>, k: nat, j: nat): bv8
    requires 4 * k + 3 < |t| && j < 3
  {
    OctetOf(t[4 * k], t[4 * k + 1], t[4 * k + 2], t[4 * k + 3], j)
  }

  function DecodedSize(t: seq<bv8>): nat
    requires |t| % 4 == 0 && Padding(t) <= 2
  {
    |t| / 4 * 3 - Padding(t)
  }

  function Decoded(t: seq<bv8>): (b: seq<bv8>)
    requires |t| % 4 == 0 && Padding(t) <= 2
    ensures |b| == DecodedSize(t)
  {
    seq(DecodedSize(t), i requires 0 <= i < DecodedSize(t) => OctetAt(t, i / 3, i % 3))
  }

  // ------------------------------------------------------------------ bit-level facts

  lemma TablesOfGroup(x: bv8, y: bv8, z: bv8)
    ensures EncodeTable0(x) == SymbolOf(x, y, z, 0)
    ensures EncodeTable1(((x & 0x03) << 4) | ((y >> 4) & 0x0F)) == SymbolOf(x, y, z, 1)
    ensures EncodeTable1(((y & 0x0F) << 2) | ((z >> 6) & 0x03)) == SymbolOf(x, y, z, 2)
    ensures EncodeTable1(z) == SymbolOf(x, y, z, 3)
  {
    hide Symbol;
  }

  lemma TablesOfShortGroup(x: bv8, y: bv8)
    ensures EncodeTable1((x & 0x03) << 4) == SymbolOf(x, 0, 0, 1)
    ensures EncodeTable1((y & 0x0F) << 2) == SymbolOf(x, y, 0, 2)
  {
    hide Symbol;
  }

  /** Any character outside the alphabet makes the word of its group too large. */
  lemma BadCharShows(a: bv8, b: bv8, c: bv8, d: bv8)
    ensures !Bad(Word2(a, b)) ==> IsSymbol(a) && IsSymbol(b)
    ensures !Bad(Word3(a, b, c)) ==> IsSymbol(c) && !Bad(Word2(a, b))
    ensures !Bad(Word4(a, b, c, d)) ==> IsSymbol(d) && !Bad(Word3(a, b, c))
  {
    hide ValueOf, IsSymbol;
  }

  lemma WordOctet0(a: bv8, b: bv8, c: bv8, d: bv8)
    requires IsSymbol(a) && IsSymbol(b) && IsSymbol(c) && IsSymbol(d)
    ensures MemoryByte(Word4(a, b, c, d), 0) == OctetOf(a, b, c, d, 0)
  {
    hide ValueOf, IsSymbol;
  }

  lemma WordOctet1(a: bv8, b: bv8, c: bv8, d: bv8)
    requires IsSymbol(a) && IsSymbol(b) && IsSymbol(c) && IsSymbol(d)
    ensures MemoryByte(Word4(a, b, c, d), 1) == OctetOf(a, b, c, d, 1)
  {
    hide ValueOf, IsSymbol;
  }

  lemma WordOctet2(a: bv8, b: bv8, c: bv8, d: bv8)
    requires IsSymbol(a) && IsSymbol(b) && IsSymbol(c) && IsSymbol(d)
    ensures MemoryByte(Word4(a, b, c, d), 2) == OctetOf(a, b, c, d, 2)
  {
    hide ValueOf, IsSymbol;
  }

  lemma WordNotBad(a: bv8, b: bv8, c: bv8, d: bv8)
    requires IsSymbol(a) && IsSymbol(b) && IsSymbol(c) && IsSymbol(d)
    ensures !Bad(Word4(a, b, c, d))
  {
    hide ValueOf, IsSymbol;
  }

  lemma WordOfSymbols(a: bv8, b: bv8, c: bv8, d: bv8)
    requires IsSymbol(a) && IsSymbol(b) && IsSymbol(c) && IsSymbol(d)
    ensures var w := Word4(a, b, c, d);
            && !Bad(w)
            && MemoryByte(w, 0) == OctetOf(a, b, c, d, 0)
            && MemoryByte(w, 1) == OctetOf(a, b, c, d, 1)
            && MemoryByte(w, 2) == OctetOf(a, b, c, d, 2)
  {
    hide *;
    WordNotBad(a, b, c, d);
    WordOctet0(a, b, c, d);
    WordOctet1(a, b, c, d);
    WordOctet2(a, b, c, d);
  }

  /** 'A' stands for six zero bits, as padding does. */
  lemma ZeroSymbol()
    ensures IsSymbol(65) && ValueOf(65) == ValueOf(PAD) == 0 && DecodeTable2(65) == 0 && DecodeTable3(65) == 0
  {
  }

  lemma OrZeroIs(w: bv32)
    ensures w | 0 == w
  {
  }

  lemma WordBeforePadding(a: bv8, b: bv8, c: bv8)
    requires IsSymbol(a) && IsSymbol(b)
    ensures IsSymbol(c) ==>
              && !Bad(Word3(a, b, c))
              && MemoryByte(Word3(a, b, c), 0) == OctetOf(a, b, c, PAD, 0)
              && MemoryByte(Word3(a, b, c), 1) == OctetOf(a, b, c, PAD, 1)
    ensures !Bad(Word2(a, b)) && MemoryByte(Word2(a, b), 0) == OctetOf(a, b, PAD, PAD, 0)
  {
    hide DecodeTable0, DecodeTable1, DecodeTable2, DecodeTable3, MemoryByte, Octet, Gather, IsSymbol, ValueOf, Bad;
    ZeroSymbol();
    WordOfSymbols(a, b, 65, 65);
    OrZeroIs(Word2(a, b));
    if IsSymbol(c) {
      WordOfSymbols(a, b, c, 65);
      OrZeroIs(Word3(a, b, c));
    }
  }

  /** Decoding a group of characters: rejected exactly when one is outside the alphabet. */
  lemma GroupWord(a: bv8, b: bv8, c: bv8, d: bv8)
    ensures !Bad(Word4(a, b, c, d)) <==> IsSymbol(a) && IsSymbol(b) && IsSymbol(c) && IsSymbol(d)
    ensures !Bad(Word3(a, b, c)) <==> IsSymbol(a) && IsSymbol(b) && IsSymbol(c)
    ensures !Bad(Word2(a, b)) <==> IsSymbol(a) && IsSymbol(b)
    ensures var w := Word4(a, b, c, d);
            !Bad(w) ==>
              && MemoryByte(w, 0) == OctetOf(a, b, c, d, 0)
              && MemoryByte(w, 1) == OctetOf(a, b, c, d, 1)
              && MemoryByte(w, 2) == OctetOf(a, b, c, d, 2)
    ensures var w := Word3(a, b, c);
            !Bad(w) ==> MemoryByte(w, 0) == OctetOf(a, b, c, PAD, 0) && MemoryByte(w, 1) == OctetOf(a, b, c, PAD, 1)
    ensures !Bad(Word2(a, b)) ==> MemoryByte(Word2(a, b), 0) == OctetOf(a, b, PAD, PAD, 0)
  {
    hide *;
    BadCharShows(a, b, c, d);
    if IsSymbol(a) && IsSymbol(b) {
      WordBeforePadding(a, b, c);
      if IsSymbol(c) && IsSymbol(d) { WordOfSymbols(a, b, c, d); }
    }
  }

  lemma GatherSextets(g: bv32)
    requires g < 0x1000000
    ensures Gather(Sextet(g, 0), Sextet(g, 1), Sextet(g, 2), Sextet(g, 3)) == g
  {
  }

  lemma JoinOctets(g: bv32)
    requires g < 0x1000000
    ensures Join(Octet(g, 0), Octet(g, 1), Octet(g, 2)) == g
  {
  }

  lemma OctetsOfJoin(x: bv8, y: bv8, z: bv8)
    ensures Join(x, y, z) < 0x1000000
    ensures Octet(Join(x, y, z), 0) == x && Octet(Join(x, y, z), 1) == y && Octet(Join(x, y, z), 2) == z
    ensures z == 0 ==> Sextet(Join(x, y, z), 3) == 0
    ensures y == z == 0 ==> Sextet(Join(x, y, z), 2) == 0
  {
  }

  lemma SextetsOfGather(a: bv8, b: bv8, c: bv8, d: bv8)
    requires a < 64 && b < 64 && c < 64 && d < 64
    ensures var g := Gather(a, b, c, d);
            g < 0x1000000 && Sextet(g, 0) == a && Sextet(g, 1) == b && Sextet(g, 2) == c && Sextet(g, 3) == d
  {
  }

  lemma GatherWithoutLast(a: bv8, b: bv8, c: bv8)
    requires a < 64 && b < 64 && c < 64
    ensures Join(Octet(Gather(a, b, c, 0), 0), Octet(Gather(a, b, c, 0), 1), 0) == Gather(a, b, c & 60, 0)
  {
  }

  lemma GatherWithoutLastTwo(a: bv8, b: bv8)
    requires a < 64 && b < 64
    ensures Join(Octet(Gather(a, b, 0, 0), 0), 0, 0) == Gather(a, b & 48, 0, 0)
  {
  }

  lemma MaskKeeps(v: bv8)
    requires v < 64
    ensures v & 60 < 64 && v & 48 < 64
    ensures v & 60 == v <==> v & 3 == 0
    ensures v & 48 == v <==> v & 15 == 0
  {
  }

  /** Without the last octet the symbols stay exactly when the bits cut off are zero. */
  lemma SextetsWithoutLast(a: bv8, b: bv8, c: bv8)
    requires a < 64 && b < 64 && c < 64
    ensures var g := Gather(a, b, c, 0);
            var h := Join(Octet(g, 0), Octet(g, 1), 0);
            Sextet(h, 0) == a && Sextet(h, 1) == b && (Sextet(h, 2) == c <==> c & 3 == 0)
    ensures var h := Join(Octet(Gather(a, b, 0, 0), 0), 0, 0);
            Sextet(h, 0) == a && (Sextet(h, 1) == b <==> b & 15 == 0)
  {
    hide *;
    MaskKeeps(b);
    MaskKeeps(c);
    SextetsOfGather(a, b, c & 60, 0);
    SextetsOfGather(a, b & 48, 0, 0);
    GatherWithoutLast(a, b, c);
    GatherWithoutLastTwo(a, b);
  }

  /** The symbols of three octets decode to them, also when zero octets are replaced by padding. */
  lemma SymbolsDecode(x: bv8, y: bv8, z: bv8)
    ensures var a, b, c, d := SymbolOf(x, y, z, 0), SymbolOf(x, y, z, 1), SymbolOf(x, y, z, 2), SymbolOf(x, y, z, 3);
            && IsSymbol(a) && IsSymbol(b) && IsSymbol(c) && IsSymbol(d)
            && OctetOf(a, b, c, d, 0) == x && OctetOf(a, b, c, d, 1) == y && OctetOf(a, b, c, d, 2) == z
            && (z == 0 ==> OctetOf(a, b, c, PAD, 0) == x && OctetOf(a, b, c, PAD, 1) == y)
            && (y == z == 0 ==> OctetOf(a, b, PAD, PAD, 0) == x)
  {
    var g := Join(x, y, z);
    OctetsOfJoin(x, y, z);
    GatherSextets(g);
    SymbolsAreDistinct(Sextet(g, 0));
    SymbolsAreDistinct(Sextet(g, 1));
    SymbolsAreDistinct(Sextet(g, 2));
    SymbolsAreDistinct(Sextet(g, 3));
    ZeroSymbol();
    hide Join, Sextet, Symbol, Octet, Gather, IsSymbol, ValueOf;
  }

  /** The last symbol before one padding sign, or before two, has unused bits that are not zero. */
  predicate Stray(c: bv8, padding: nat) {
    if padding == 1 then ValueOf(c) & 3 != 0 else padding == 2 && ValueOf(c) & 15 != 0
  }

  /** The octets of four symbols encode to them; with padding, unless stray bits are lost. */
  lemma OctetsEncode(a: bv8, b: bv8, c: bv8, d: bv8, j: nat)
    requires j < 4 && IsSymbol(a) && IsSymbol(b)
    ensures IsSymbol(c) && IsSymbol(d) ==>
              SymbolOf(OctetOf(a, b, c, d, 0), OctetOf(a, b, c, d, 1), OctetOf(a, b, c, d, 2), j)
              == (if j == 0 then a else if j == 1 then b else if j == 2 then c else d)
  {
    var g := Gather(ValueOf(a), ValueOf(b), ValueOf(c), ValueOf(d));
    SextetsOfGather(ValueOf(a), ValueOf(b), ValueOf(c), ValueOf(d));
    JoinOctets(g);
    hide Join, Sextet, Symbol, Octet, Gather, IsSymbol, ValueOf;
  }

  lemma OctetsEncodePadded1(a: bv8, b: bv8, c: bv8)
    requires IsSymbol(a) && IsSymbol(b) && IsSymbol(c)
    ensures var x, y := OctetOf(a, b, c, PAD, 0), OctetOf(a, b, c, PAD, 1);
            SymbolOf(x, y, 0, 0) == a && SymbolOf(x, y, 0, 1) == b && (SymbolOf(x, y, 0, 2) == c <==> !Stray(c, 1))
  {
    ZeroSymbol();
    var v0, v1, v2 := ValueOf(a), ValueOf(b), ValueOf(c);
    SextetsWithoutLast(v0, v1, v2);
    var g := Gather(v0, v1, v2, 0);
    SymbolsAreDistinct(Sextet(Join(Octet(g, 0), Octet(g, 1), 0), 2));
    hide Join, Sextet, Symbol, Octet, Gather, IsSymbol, ValueOf;
  }

  lemma OctetsEncodePadded2(a: bv8, b: bv8)
    requires IsSymbol(a) && IsSymbol(b)
    ensures var x := OctetOf(a, b, PAD, PAD, 0);
            SymbolOf(x, 0, 0, 0) == a && (SymbolOf(x, 0, 0, 1) == b <==> !Stray(b, 2))
  {
    ZeroSymbol();
    var v0, v1 := ValueOf(a), ValueOf(b);
    SextetsWithoutLast(v0, v1, 0);
    SymbolsAreDistinct(Sextet(Join(Octet(Gather(v0, v1, 0, 0), 0), 0, 0), 1));
    hide Join, Sextet, Symbol, Octet, Gather, IsSymbol, ValueOf;
  }

  // ------------------------------------------------------------------ groups within a text

  lemma SymbolsWellFormed(t: seq<bv8>)
    requires |t| % 4 == 0 && Padding(t) <= 2
    requires AllSymbols(t, |t| - Padding(t))
    ensures WellFormed(t)
  {
    PadIsNoSymbol();
    hide IsSymbol;
    assert Shape(t, Padding(t));
  }

  lemma NotWellFormed(t: seq<bv8>, q: nat)
    requires |t| % 4 == 0 && Padding(t) <= 2
    requires q < |t| - Padding(t) && !IsSymbol(t[q])
    ensures !WellFormed(t)
  {
    PadIsNoSymbol();
    hide IsSymbol;
  }

  /** A well-formed text is symbols up to the padding that `std::count` finds. */
  lemma WellFormedShape(t: seq<bv8>)
    requires WellFormed(t)
    ensures Shape(t, Padding(t))
  {
    PadIsNoSymbol();
    hide IsSymbol;
  }

  lemma PadIsNoSymbol()
    ensures !IsSymbol(PAD)
  {
  }

  lemma GroupOctets(t: seq<bv8>, k: nat)
    requires |t| % 4 == 0 && Padding(t) <= 2 && 4 * k < |t|
    ensures Decoded(t)[3 * k] == OctetAt(t, k, 0)
    ensures 3 * k + 1 < DecodedSize(t) ==> Decoded(t)[3 * k + 1] == OctetAt(t, k, 1)
    ensures 3 * k + 2 < DecodedSize(t) ==> Decoded(t)[3 * k + 2] == OctetAt(t, k, 2)
  {
    hide OctetAt, PadCount;
    assert (3 * k + 1) / 3 == (3 * k + 2) / 3 == k;
  }

  /** The four characters of a group, by position in the text. */
  lemma GroupChars(b: seq<bv8>, k: nat)
    requires 3 * k < |b|
    ensures 4 * k + 3 < EncodedSize(|b|)
    ensures Encoded(b)[4 * k] == CharAt(b, k, 0) && Encoded(b)[4 * k + 1] == CharAt(b, k, 1)
    ensures Encoded(b)[4 * k + 2] == CharAt(b, k, 2) && Encoded(b)[4 * k + 3] == CharAt(b, k, 3)
  {
    hide CharAt;
    assert (4 * k + 1) / 4 == (4 * k + 2) / 4 == (4 * k + 3) / 4 == k;
  }

  lemma FullGroupChars(b: seq<bv8>, k: nat)
    requires 3 * k + 3 <= |b|
    ensures var x, y, z, o := b[3 * k], b[3 * k + 1], b[3 * k + 2], 4 * k;
            && o + 3 < EncodedSize(|b|)
            && Encoded(b)[o] == EncodeTable0(x)
            && Encoded(b)[o + 1] == EncodeTable1(((x & 0x03) << 4) | ((y >> 4) & 0x0F))
            && Encoded(b)[o + 2] == EncodeTable1(((y & 0x0F) << 2) | ((z >> 6) & 0x03))
            && Encoded(b)[o + 3] == EncodeTable1(z)
  {
    GroupChars(b, k);
    TablesOfGroup(b[3 * k], b[3 * k + 1], b[3 * k + 2]);
    hide EncodeTable0, EncodeTable1, SymbolOf, EncodedSize, Encoded;
  }

  lemma LastGroupChars(b: seq<bv8>, k: nat)
    requires 3 * k < |b| < 3 * k + 3
    ensures var x, o := b[3 * k], 4 * k;
            && EncodedSize(|b|) == o + 4
            && Encoded(b)[o] == EncodeTable0(x)
            && Encoded(b)[o + 3] == PAD
            && (|b| == 3 * k + 1 ==> Encoded(b)[o + 1] == EncodeTable1((x & 0x03) << 4) && Encoded(b)[o + 2] == PAD)
            && (|b| == 3 * k + 2 ==>
                  var y := b[3 * k + 1];
                  && Encoded(b)[o + 1] == EncodeTable1(((x & 0x03) << 4) | ((y >> 4) & 0x0F))
                  && Encoded(b)[o + 2] == EncodeTable1((y & 0x0F) << 2))
  {
    GroupChars(b, k);
    TablesOfGroup(b[3 * k], OrZero(b, 3 * k + 1), 0);
    TablesOfShortGroup(b[3 * k], OrZero(b, 3 * k + 1));
    hide EncodeTable0, EncodeTable1, SymbolOf, Encoded;
  }

  // ------------------------------------------------------------------ the code

  /** `encode_into`: a buffer of padding signs, filled group by group. */
  method EncodeInto(data: seq<bv8>) returns (text: seq<bv8>)
    ensures text == Encoded(data)
  {
    hide EncodeTable0, EncodeTable1, Encoded;
    var n := |data|;
    var encoded := new bv8[EncodedSize(n)](_ => PAD);
    var pos, out := 0, 0;
    for i := n / 3 downto 0
      invariant pos == 3 * (n / 3 - i) && out == 4 * (n / 3 - i)
      invariant forall q | 0 <= q < out :: encoded[q] == Encoded(data)[q]
      invariant forall q | out <= q < encoded.Length :: encoded[q] == PAD
    {
      var t1, t2, t3 := data[pos], data[pos + 1], data[pos + 2];
      FullGroupChars(data, n / 3 - i - 1);
      encoded[out] := EncodeTable0(t1);
      encoded[out + 1] := EncodeTable1(((t1 & 0x03) << 4) | ((t2 >> 4) & 0x0F));
      encoded[out + 2] := EncodeTable1(((t2 & 0x0F) << 2) | ((t3 >> 6) & 0x03));
      encoded[out + 3] := EncodeTable1(t3);
      pos, out := pos + 3, out + 4;
    }
    if n % 3 != 0 { EncodeLast(data, pos, encoded, out); }
    assert encoded[..] == Encoded(data);
    text := encoded[..];
  }

  /** The last one or two octets; the signs of padding are in place already. */
  method EncodeLast(data: seq<bv8>, pos: nat, encoded: array<bv8>, out: nat)
    requires pos < |data| < pos + 3 && pos % 3 == 0 && out == 4 * (pos / 3)
    requires encoded.Length == EncodedSize(|data|)
    requires forall q | 0 <= q < out :: encoded[q] == Encoded(data)[q]
    requires forall q | out <= q < encoded.Length :: encoded[q] == PAD
    modifies encoded
    ensures forall q | 0 <= q < encoded.Length :: encoded[q] == Encoded(data)[q]
  {
    hide EncodeTable0, EncodeTable1, Encoded;
    LastGroupChars(data, pos / 3);
    if |data| - pos == 1 {
      var t1 := data[pos];
      encoded[out] := EncodeTable0(t1);
      encoded[out + 1] := EncodeTable1((t1 & 0x03) << 4);
    } else {
      var t1, t2 := data[pos], data[pos + 1];
      encoded[out] := EncodeTable0(t1);
      encoded[out + 1] := EncodeTable1(((t1 & 0x03) << 4) | ((t2 >> 4) & 0x0F));
      encoded[out + 2] := EncodeTable1((t2 & 0x0F) << 2);
    }
  }

  const BAD_SIZE := "Invalid base64 encoded data - Size not divisible by 4"
  const BAD_PADDING := "Invalid base64 encoded data - Found more than 2 padding signs"
  const BAD_SYMBOL := "Invalid base64 encoded data - Invalid character"

  /** `decode_into`: whole groups first, then the padded one. */
  method DecodeInto(text: seq<bv8>) returns (r: Result<seq<bv8>>)
    ensures r.Ok? <==> WellFormed(text)
    ensures WellFormed(text) ==> r == Ok(Decoded(text))
    ensures r.Err? ==> r.error == if |text| % 4 != 0 then BAD_SIZE
                                else if Padding(text) > 2 then BAD_PADDING else BAD_SYMBOL
  {
    if text == [] { return Ok([]); }
    if |text| % 4 != 0 { return Err(BAD_SIZE); }
    var padding := PadCount(text);
    if padding > 2 { return Err(BAD_PADDING); }
    hide IsSymbol, WellFormed, Decoded, PadCount;
    var decoded := new bv8[|text| * 3 / 4 - padding](_ => 46);
    var groups := |text| / 4 - (if padding != 0 then 1 else 0);
    var ok := DecodeGroups(text, groups, decoded);
    if ok && padding > 0 { ok := DecodeLast(text, padding, groups, decoded); }
    if !ok { return Err(BAD_SYMBOL); }
    SymbolsWellFormed(text);
    assert decoded[..] == Decoded(text);
    return Ok(decoded[..]);
  }

  /** The loop over the groups without padding. */
  method DecodeGroups(text: seq<bv8>, groups: nat, decoded: array<bv8>) returns (ok: bool)
    requires |text| % 4 == 0 && Padding(text) <= 2 && 4 * groups <= |text| - Padding(text)
    requires decoded.Length == DecodedSize(text)
    modifies decoded
    ensures !ok ==> !WellFormed(text)
    ensures ok ==> AllSymbols(text, 4 * groups)
    ensures ok ==> 3 * groups <= decoded.Length && forall q | 0 <= q < 3 * groups :: decoded[q] == Decoded(text)[q]
  {
    hide Word4, Bad, MemoryByte, IsSymbol, WellFormed, Decoded, PadCount;
    var pos, out := 0, 0;
    for i := groups downto 0
      invariant pos == 4 * (groups - i) && out == 3 * (groups - i)
      invariant AllSymbols(text, pos)
      invariant forall q | 0 <= q < out :: decoded[q] == Decoded(text)[q]
    {
      FullGroup(text, groups - i - 1);
      var temp := Word4(text[pos], text[pos + 1], text[pos + 2], text[pos + 3]);
      if Bad(temp) { return false; }
      decoded[out], decoded[out + 1], decoded[out + 2] := MemoryByte(temp, 0), MemoryByte(temp, 1), MemoryByte(temp, 2);
      pos, out := pos + 4, out + 3;
    }
    return true;
  }

  /** The group with padding. */
  method DecodeLast(text: seq<bv8>, padding: nat, groups: nat, decoded: array<bv8>) returns (ok: bool)
    requires |text| == 4 * groups + 4 && 1 <= padding == PadCount(text) <= 2
    requires decoded.Length == 3 * groups + 3 - padding
    requires AllSymbols(text, 4 * groups)
    requires forall q | 0 <= q < 3 * groups :: decoded[q] == Decoded(text)[q]
    modifies decoded
    ensures !ok ==> !WellFormed(text)
    ensures ok ==> AllSymbols(text, |text| - padding)
    ensures ok ==> forall q | 0 <= q < decoded.Length :: decoded[q] == Decoded(text)[q]
  {
    hide Word2, Word3, Bad, MemoryByte, IsSymbol, WellFormed, Decoded, PadCount;
    PaddedGroup(text, groups);
    var pos, out := 4 * groups, 3 * groups;
    if padding == 1 {
      var temp := Word3(text[pos], text[pos + 1], text[pos + 2]);
      if Bad(temp) { return false; }
      decoded[out], decoded[out + 1] := MemoryByte(temp, 0), MemoryByte(temp, 1);
    } else {
      var temp := Word2(text[pos], text[pos + 1]);
      if Bad(temp) { return false; }
      decoded[out] := MemoryByte(temp, 0);
    }
    return true;
  }

  /** What the loop does with group `k`: reject it, or append its three octets. */
  lemma FullGroup(t: seq<bv8>, k: nat)
    requires |t| % 4 == 0 && Padding(t) <= 2 && 4 * k + 4 <= |t| - Padding(t)
    requires AllSymbols(t, 4 * k)
    ensures var w := Word4(t[4 * k], t[4 * k + 1], t[4 * k + 2], t[4 * k + 3]);
            && (Bad(w) ==> !WellFormed(t))
            && (!Bad(w) ==>
                  && AllSymbols(t, 4 * k + 4) && 3 * k + 3 <= DecodedSize(t)
                  && Decoded(t)[3 * k] == MemoryByte(w, 0)
                  && Decoded(t)[3 * k + 1] == MemoryByte(w, 1)
                  && Decoded(t)[3 * k + 2] == MemoryByte(w, 2))
  {
    hide Word2, Word3, Word4, Bad, MemoryByte, OctetOf, IsSymbol, WellFormed, Decoded, PadCount;
    GroupWord(t[4 * k], t[4 * k + 1], t[4 * k + 2], t[4 * k + 3]);
    if Bad(Word4(t[4 * k], t[4 * k + 1], t[4 * k + 2], t[4 * k + 3])) {
      RejectGroup(t, 4 * k, 4);
    } else {
      GroupOctets(t, k);
    }
  }

  /** What the code after the loop does with the padded group. */
  lemma PaddedGroup(t: seq<bv8>, k: nat)
    requires |t| == 4 * k + 4 && 1 <= PadCount(t) <= 2
    requires AllSymbols(t, 4 * k)
    ensures var w := Word3(t[4 * k], t[4 * k + 1], t[4 * k + 2]);
            PadCount(t) == 1 ==>
              && (Bad(w) ==> !WellFormed(t))
              && (!Bad(w) ==>
                    && AllSymbols(t, 4 * k + 3)
                    && Decoded(t)[3 * k] == MemoryByte(w, 0) && Decoded(t)[3 * k + 1] == MemoryByte(w, 1))
    ensures var w := Word2(t[4 * k], t[4 * k + 1]);
            PadCount(t) == 2 ==>
              && (Bad(w) ==> !WellFormed(t))
              && (!Bad(w) ==> AllSymbols(t, 4 * k + 2) && Decoded(t)[3 * k] == MemoryByte(w, 0))
  {
    hide Word2, Word3, Word4, Bad, MemoryByte, OctetOf, IsSymbol, WellFormed, Decoded, PadCount;
    var a, b, c := t[4 * k], t[4 * k + 1], t[4 * k + 2];
    GroupWord(a, b, c, t[4 * k + 3]);
    if PadCount(t) == 1 && Bad(Word3(a, b, c)) {
      RejectGroup(t, 4 * k, 3);
    } else if PadCount(t) == 2 && Bad(Word2(a, b)) {
      RejectGroup(t, 4 * k, 2);
    } else {
      PadsAreLast(t);
      GroupOctets(t, k);
    }
  }

  predicate AllSymbols(t: seq<bv8>, n: nat)
    requires n <= |t|
  {
    forall q | 0 <= q < n :: IsSymbol(t[q])
  }

  /** Symbols up to the counted padding leave the last places to the padding signs. */
  lemma PadsAreLast(t: seq<bv8>)
    requires |t| >= 4 && PadCount(t) <= 2
    requires forall q | |t| - 4 <= q < |t| - PadCount(t) :: IsSymbol(t[q])
    ensures forall q | |t| - PadCount(t) <= q < |t| :: t[q] == PAD
  {
    PadIsNoSymbol();
    hide IsSymbol;
  }

  /** A character outside the alphabet among the first `n` of a group that should hold symbols. */
  lemma RejectGroup(t: seq<bv8>, pos: nat, n: nat)
    requires |t| % 4 == 0 && Padding(t) <= 2 && pos + n <= |t| - Padding(t)
    requires exists q | pos <= q < pos + n :: !IsSymbol(t[q])
    ensures !WellFormed(t)
  {
    hide *;
    var q :| pos <= q < pos + n && !IsSymbol(t[q]);
    NotWellFormed(t, q);
  }

  // ------------------------------------------------------------------ round trips

  /** Every byte string survives encoding and decoding. */
  lemma DecodeInvertsEncode(b: seq<bv8>)
    ensures WellFormed(Encoded(b)) && Decoded(Encoded(b)) == b
  {
    EncodedIsWellFormed(b);
    hide OctetAt, Encoded, WellFormed;
    forall i | 0 <= i < |b| ensures Decoded(Encoded(b))[i] == b[i] {
      OctetsComeBack(b, i / 3);
    }
  }

  lemma CharIsSymbolOrPad(b: seq<bv8>, i: nat)
    requires i < EncodedSize(|b|)
    ensures if 3 * (i / 4) + i % 4 > |b| then Encoded(b)[i] == PAD else IsSymbol(Encoded(b)[i])
  {
    var k := i / 4;
    SymbolsDecode(OrZero(b, 3 * k), OrZero(b, 3 * k + 1), OrZero(b, 3 * k + 2));
    hide SymbolOf, IsSymbol, OctetOf;
  }

  lemma EncodedIsWellFormed(b: seq<bv8>)
    ensures WellFormed(Encoded(b)) && DecodedSize(Encoded(b)) == |b|
  {
    PadIsNoSymbol();
    hide IsSymbol, Encoded;
    var t, p := Encoded(b), if |b| % 3 == 0 then 0 else 3 - |b| % 3;
    forall i | 0 <= i < |t|
      ensures if i < |t| - p then IsSymbol(t[i]) else t[i] == PAD
    {
      CharIsSymbolOrPad(b, i);
    }
    assert Shape(t, p);
  }

  lemma OctetsComeBack(b: seq<bv8>, k: nat)
    requires 3 * k < |b|
    ensures 4 * k + 3 < EncodedSize(|b|) && OctetAt(Encoded(b), k, 0) == b[3 * k]
    ensures 3 * k + 1 < |b| ==> OctetAt(Encoded(b), k, 1) == b[3 * k + 1]
    ensures 3 * k + 2 < |b| ==> OctetAt(Encoded(b), k, 2) == b[3 * k + 2]
  {
    var x, y, z := OrZero(b, 3 * k), OrZero(b, 3 * k + 1), OrZero(b, 3 * k + 2);
    GroupChars(b, k);
    SymbolsDecode(x, y, z);
    hide SymbolOf, OctetOf, IsSymbol, Encoded, EncodedSize;
  }

  /** The bits of the last symbol that no octet takes up are zero. */
  predicate UnusedBitsAreZero(t: seq<bv8>)
    requires WellFormed(t)
  {
    && (Padding(t) == 1 ==> !Stray(t[|t| - 2], 1))
    && (Padding(t) == 2 ==> !Stray(t[|t| - 3], 2))
  }

  /** Re-encoding what was decoded gives the same text exactly for texts without stray bits. */
  lemma EncodeInvertsDecodeIffCanonical(t: seq<bv8>)
    requires WellFormed(t)
    ensures Encoded(Decoded(t)) == t <==> UnusedBitsAreZero(t)
  {
    hide *;
    if t == [] {
      NothingToEncode(t);
    } else {
      LastGroup(t);
      forall i | 0 <= i < |t| && i != |t| - 2 && i != |t| - 3
        ensures Encoded(Decoded(t))[i] == t[i]
      {
        OtherCharsComeBack(t, i);
      }
      EqualButForTwo(Encoded(Decoded(t)), t);
    }
  }

  lemma NothingToEncode(t: seq<bv8>)
    requires WellFormed(t) && t == []
    ensures Encoded(Decoded(t)) == t && UnusedBitsAreZero(t)
  {
    hide Stray;
  }

  lemma LastGroup(t: seq<bv8>)
    requires WellFormed(t) && t != []
    ensures |t| >= 4 && |Encoded(Decoded(t))| == |t|
    ensures var u, n := Encoded(Decoded(t)), |t|;
            u[n - 2] == t[n - 2] && u[n - 3] == t[n - 3] <==> UnusedBitsAreZero(t)
  {
    SizesAgree(t);
    var k := |t| / 4 - 1;
    assert |t| == 4 * k + 4;
    hide *;
    EndChars(t, k);
  }

  lemma EndChars(t: seq<bv8>, k: nat)
    requires WellFormed(t) && |t| == 4 * k + 4
    ensures |Encoded(Decoded(t))| == |t|
    ensures var u, o := Encoded(Decoded(t)), 4 * k;
            u[o + 2] == t[o + 2] && u[o + 1] == t[o + 1] <==> UnusedBitsAreZero(t)
  {
    hide Encoded, Decoded, Stray, WellFormed, PadCount, EncodedSize;
    CharsComeBack(t, k);
    assert t[|t| - 2] == t[4 * k + 2] && t[|t| - 3] == t[4 * k + 1];
  }

  lemma OtherCharsComeBack(t: seq<bv8>, i: nat)
    requires WellFormed(t) && i < |t| && i != |t| - 2 && i != |t| - 3
    ensures |Encoded(Decoded(t))| == |t| && Encoded(Decoded(t))[i] == t[i]
  {
    hide *;
    var k, j := i / 4, i % 4;
    CharsComeBack(t, k);
    assert i == 4 * k + j;
  }

  lemma EqualButForTwo(u: seq<bv8>, t: seq<bv8>)
    requires |u| == |t|
    requires forall i | 0 <= i < |t| && i != |t| - 2 && i != |t| - 3 :: u[i] == t[i]
    ensures |t| >= 4 ==> (u == t <==> u[|t| - 2] == t[|t| - 2] && u[|t| - 3] == t[|t| - 3])
    ensures |t| == 0 ==> u == t
  {
  }

  lemma SizesAgree(t: seq<bv8>)
    requires |t| % 4 == 0 && Padding(t) <= 2
    ensures EncodedSize(DecodedSize(t)) == |t|
  {
    hide PadCount;
    var m, p := |t| / 4, Padding(t);
    assert |t| == 4 * m && DecodedSize(t) == 3 * m - p;
    if p > 0 { assert DecodedSize(t) == 3 * (m - 1) + (3 - p); }
  }

  /** Group `k` of the text, re-encoded: only the last symbol of a padded group may change. */
  lemma CharsComeBack(t: seq<bv8>, k: nat)
    requires WellFormed(t) && 4 * k + 4 <= |t|
    ensures |Encoded(Decoded(t))| == |t|
    ensures var u, o, p := Encoded(Decoded(t)), 4 * k, if 4 * k + 4 == |t| then Padding(t) else 0;
            && u[o] == t[o]
            && (u[o + 1] == t[o + 1] <==> !(p == 2 && Stray(t[o + 1], 2)))
            && (u[o + 2] == t[o + 2] <==> !(p == 1 && Stray(t[o + 2], 1)))
            && u[o + 3] == t[o + 3]
  {
    SizesAgree(t);
    hide SymbolOf, OctetOf, IsSymbol, Encoded, Decoded, Stray, PadCount, WellFormed;
    WellFormedShape(t);
    var p := if 4 * k + 4 == |t| then Padding(t) else 0;
    var c0, c1, c2, c3 := t[4 * k], t[4 * k + 1], t[4 * k + 2], t[4 * k + 3];
    GroupOctets(t, k);
    GroupChars(Decoded(t), k);
    assert p < 1 ==> IsSymbol(c3);
    assert p < 2 ==> IsSymbol(c2);
    assert IsSymbol(c0) && IsSymbol(c1);
    if p == 0 {
      OctetsEncode(c0, c1, c2, c3, 0);
      OctetsEncode(c0, c1, c2, c3, 1);
      OctetsEncode(c0, c1, c2, c3, 2);
      OctetsEncode(c0, c1, c2, c3, 3);
    } else if p == 1 {
      OctetsEncodePadded1(c0, c1, c2);
    } else {
      OctetsEncodePadded2(c0, c1);
    }
  }
}
