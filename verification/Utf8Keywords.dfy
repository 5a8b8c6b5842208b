/** UTF-8 coding and keyword matching of the router: `orchestrator/src/agent_router.cpp`.

    The router looks for keywords as byte strings inside byte strings. What it means to match is
    said here about code points; the theorems show that the byte search finds exactly that. */
module Utf8Keywords {
  import opened Common

  type Bytes = seq<bv8>
  type Text = seq<bv32>

  function Low(x: bv32): bv8 { (x & 0xff) as bv8 }

  function Cont(x: bv32): bv8 { Low(0x80 | (x & 0x3F)) }

  /** The first byte that `encodeUtf8` writes. */
  function Lead(cp: bv32): bv8 {
    if cp < 0x80 then Low(cp) else if cp < 0x800 then Low(0xC0 | (cp >> 6))
    else if cp < 0x10000 then Low(0xE0 | (cp >> 12)) else Low(0xF0 | (cp >> 18))
  }

  /** `encodeUtf8`, for every 32-bit number. */
  function Encode(cp: bv32): (b: Bytes)
    ensures 1 <= |b| <= 4 && b[0] == Lead(cp)
    ensures |b| == if cp < 0x80 then 1 else if cp < 0x800 then 2 else if cp < 0x10000 then 3 else 4
  {
    if cp < 0x80 then [Lead(cp)]
    else if cp < 0x800 then [Lead(cp), Cont(cp)]
    else if cp < 0x10000 then [Lead(cp), Cont(cp >> 6), Cont(cp)]
    else [Lead(cp), Cont(cp >> 12), Cont(cp >> 6), Cont(cp)]
  }

  /** How many bytes `decodeUtf8` wants to read; 0 for a byte that starts nothing. */
  function Wants(c: bv8): (n: nat)
    ensures n <= 4
  {
    if c < 0x80 then 1 else if c & 0xE0 == 0xC0 then 2 else if c & 0xF0 == 0xE0 then 3
    else if c & 0xF8 == 0xF0 then 4 else 0
  }

  function Low6(c: bv8): bv32 { (c & 0x3F) as bv32 }

  function Value1(c: bv8): bv32 { c as bv32 }

  function Value2(c: bv8, b1: bv8): bv32 { ((c & 0x1F) as bv32 << 6) | Low6(b1) }

  function Value3(c: bv8, b1: bv8, b2: bv8): bv32 { ((c & 0x0F) as bv32 << 12) | (Low6(b1) << 6) | Low6(b2) }

  function Value4(c: bv8, b1: bv8, b2: bv8, b3: bv8): bv32 {
    ((c & 0x07) as bv32 << 18) | (Low6(b1) << 12) | (Low6(b2) << 6) | Low6(b3)
  }

  /** The code point at `pos` and the position after it; a malformed byte reads as 0. */
  function Decode(s: Bytes, pos: nat): (r: (bv32, nat))
    requires pos < |s|
    ensures pos < r.1 <= |s|
  {
    var c, n := s[pos], Wants(s[pos]);
    if n == 1 then (Value1(c), pos + 1)
    else if n == 2 && pos + 1 < |s| then (Value2(c, s[pos + 1]), pos + 2)
    else if n == 3 && pos + 2 < |s| then (Value3(c, s[pos + 1], s[pos + 2]), pos + 3)
    else if n == 4 && pos + 3 < |s| then (Value4(c, s[pos + 1], s[pos + 2], s[pos + 3]), pos + 4)
    else (0, pos + 1)
  }

  /** `decodeUtf8`: assembles the code point byte by byte and returns the advanced position. */
  method DecodeUtf8(s: Bytes, pos: nat) returns (cp: bv32, next: nat)
    requires pos < |s|
    ensures (cp, next) == Decode(s, pos)
  {
    var c := s[pos];
    cp := 0;
    if c < 0x80 {
      cp, next := c as bv32, pos + 1;
    } else if c & 0xE0 == 0xC0 && pos + 1 < |s| {
      cp := (c & 0x1F) as bv32 << 6;
      cp := cp | (s[pos + 1] & 0x3F) as bv32;
      next := pos + 2;
    } else if c & 0xF0 == 0xE0 && pos + 2 < |s| {
      cp := (c & 0x0F) as bv32 << 12;
      cp := cp | ((s[pos + 1] & 0x3F) as bv32 << 6);
      cp := cp | (s[pos + 2] & 0x3F) as bv32;
      next := pos + 3;
    } else if c & 0xF8 == 0xF0 && pos + 3 < |s| {
      cp := (c & 0x07) as bv32 << 18;
      cp := cp | ((s[pos + 1] & 0x3F) as bv32 << 12);
      cp := cp | ((s[pos + 2] & 0x3F) as bv32 << 6);
      cp := cp | (s[pos + 3] & 0x3F) as bv32;
      next := pos + 4;
    } else {
      next := pos + 1;
    }
  }

  function DecodeFrom(s: Bytes, pos: nat): Text
    decreases |s| - pos
  {
    if pos >= |s| then [] else [Decode(s, pos).0] + DecodeFrom(s, Decode(s, pos).1)
  }

  function EncodeAll(t: Text): Bytes {
    if t == [] then [] else Encode(t[0]) + EncodeAll(t[1..])
  }

  // ------------------------------------------------------------------ one code point

  predicate IsCont(c: bv8) { c & 0xC0 == 0x80 }

  lemma ContIsCont(x: bv32)
    ensures IsCont(Cont(x))
  {
  }

  lemma LeadIsNoCont(cp: bv32)
    ensures !IsCont(Lead(cp))
  {
  }

  lemma LeadWants(cp: bv32)
    requires cp < 0x200000
    ensures Wants(Lead(cp)) == |Encode(cp)|
  {
    hide Encode;
  }

  /** Beyond 21 bits the first byte is either malformed or that of another four-byte form. */
  lemma LongLeadWants(cp: bv32)
    requires cp >= 0x10000
    ensures Wants(Lead(cp)) == 4 || Wants(Lead(cp)) == 0
  {
  }

  lemma Value1Back(cp: bv32)
    requires cp < 0x80
    ensures Value1(Lead(cp)) == cp
  {
  }

  lemma Value2Back(cp: bv32)
    requires 0x80 <= cp < 0x800
    ensures Value2(Lead(cp), Cont(cp)) == cp
  {
  }

  lemma Value3Back(cp: bv32)
    requires 0x800 <= cp < 0x10000
    ensures Value3(Lead(cp), Cont(cp >> 6), Cont(cp)) == cp
  {
  }

  /** Only 21 bits come back. */
  lemma Value4Back(cp: bv32)
    requires cp >= 0x10000
    ensures Value4(Lead(cp), Cont(cp >> 12), Cont(cp >> 6), Cont(cp)) == cp & 0x1FFFFF
  {
  }

  lemma Mask21(cp: bv32)
    ensures cp & 0x1FFFFF == cp <==> cp < 0x200000
  {
  }

  /** `s` holds the encoding of `cp` at `pos`. */
  ghost predicate Holds(s: Bytes, pos: nat, cp: bv32) {
    pos + |Encode(cp)| <= |s| && s[pos..pos + |Encode(cp)|] == Encode(cp)
  }

  lemma HeldBytes(s: Bytes, pos: nat, cp: bv32)
    requires Holds(s, pos, cp)
    ensures s[pos] == Lead(cp)
    ensures |Encode(cp)| == 2 ==> s[pos + 1] == Cont(cp)
    ensures |Encode(cp)| == 3 ==> s[pos + 1] == Cont(cp >> 6) && s[pos + 2] == Cont(cp)
    ensures |Encode(cp)| == 4 ==> s[pos + 1] == Cont(cp >> 12) && s[pos + 2] == Cont(cp >> 6) && s[pos + 3] == Cont(cp)
  {
    hide Lead, Cont;
    var b := s[pos..pos + |Encode(cp)|];
    assert forall i | 0 <= i < |b| :: b[i] == s[pos + i];
  }

  /** Decoding returns an encoded code point exactly when it has at most 21 bits. */
  lemma DecodeOne(s: Bytes, pos: nat, cp: bv32)
    requires Holds(s, pos, cp)
    ensures cp < 0x200000 ==> Decode(s, pos) == (cp, pos + |Encode(cp)|)
    ensures cp >= 0x200000 ==> Decode(s, pos).0 != cp
  {
    HeldBytes(s, pos, cp);
    hide Lead, Cont, Value1, Value2, Value3, Value4, Wants, Holds;
    Mask21(cp);
    if cp < 0x200000 { LeadWants(cp); } else { LongLeadWants(cp); }
    if cp < 0x80 { Value1Back(cp); }
    else if cp < 0x800 { Value2Back(cp); }
    else if cp < 0x10000 { Value3Back(cp); }
    else { Value4Back(cp); }
  }

  // ------------------------------------------------------------------ round trip

  /** At most 21 bits, which covers Unicode. */
  predicate Narrow(cp: bv32) { cp < 0x200000 }

  ghost predicate AllNarrow(t: Text) {
    forall i | 0 <= i < |t| :: Narrow(t[i])
  }

  /** A text survives encoding and decoding if and only if all its code points are below 2^21. */
  lemma RoundTripIffNarrow(t: Text)
    ensures DecodeFrom(EncodeAll(t), 0) == t <==> AllNarrow(t)
  {
    DecodeRest(EncodeAll(t), 0, t);
  }

  lemma {:induction false} DecodeRest(s: Bytes, pos: nat, t: Text)
    requires pos <= |s| && s[pos..] == EncodeAll(t)
    ensures DecodeFrom(s, pos) == t <==> AllNarrow(t)
    decreases |t|
  {
    hide *;
    if t == [] {
      NothingLeft(s, pos);
    } else {
      EncodedHead(s, pos, t);
      DecodeRest(s, pos + |Encode(t[0])|, t[1..]);
      HeadDecides(s, pos, t);
    }
  }

  lemma NothingLeft(s: Bytes, pos: nat)
    requires pos <= |s| && s[pos..] == EncodeAll([])
    ensures DecodeFrom(s, pos) == [] && AllNarrow([])
  {
  }

  lemma HeadDecides(s: Bytes, pos: nat, t: Text)
    requires t != [] && Holds(s, pos, t[0])
    requires DecodeFrom(s, pos + |Encode(t[0])|) == t[1..] <==> AllNarrow(t[1..])
    ensures DecodeFrom(s, pos) == t <==> AllNarrow(t)
  {
    hide *;
    DecodeHead(s, pos, t[0]);
    HeadAndTailNarrow(t);
    ConsEqual(t[0], DecodeFrom(s, pos + |Encode(t[0])|), t);
  }

  lemma DecodeHead(s: Bytes, pos: nat, cp: bv32)
    requires Holds(s, pos, cp)
    ensures Narrow(cp) ==> DecodeFrom(s, pos) == [cp] + DecodeFrom(s, pos + |Encode(cp)|)
    ensures !Narrow(cp) ==> DecodeFrom(s, pos) != [] && DecodeFrom(s, pos)[0] != cp
  {
    assert pos < |s|;
    hide Encode, Decode, Holds;
    DecodeOne(s, pos, cp);
  }

  lemma EncodedHead(s: Bytes, pos: nat, t: Text)
    requires t != [] && pos <= |s| && s[pos..] == EncodeAll(t)
    ensures Holds(s, pos, t[0])
    ensures pos + |Encode(t[0])| <= |s| && s[pos + |Encode(t[0])|..] == EncodeAll(t[1..])
  {
    Dropped(s, pos, Encode(t[0]), EncodeAll(t[1..]));
    hide Encode;
  }

  lemma ConsEqual(x: bv32, rest: Text, t: Text)
    requires t != []
    ensures [x] + rest == t <==> x == t[0] && rest == t[1..]
  {
    if [x] + rest == t { assert ([x] + rest)[1..] == rest; }
    if x == t[0] && rest == t[1..] { assert t == [t[0]] + t[1..]; }
  }

  lemma HeadAndTailNarrow(t: Text)
    requires t != []
    ensures AllNarrow(t) <==> Narrow(t[0]) && AllNarrow(t[1..])
  {
    hide Narrow;
    if Narrow(t[0]) && AllNarrow(t[1..]) {
      forall i | 0 <= i < |t| ensures Narrow(t[i]) {
        if i > 0 { assert t[i] == t[1..][i - 1]; }
      }
    }
  }

  lemma Dropped<T>(s: seq<T>, pos: nat, a: seq<T>, b: seq<T>)
    requires pos <= |s| && s[pos..] == a + b
    ensures pos + |a| <= |s| && s[pos..pos + |a|] == a && s[pos + |a|..] == b
  {
    assert s[pos..][..|a|] == a;
    assert s[pos..][|a|..] == b;
  }

  // ------------------------------------------------------------------ self-synchronisation

  ghost predicate OccursAt(s: Bytes, w: Bytes, p: nat) {
    p + |w| <= |s| && s[p..p + |w|] == w
  }

  // Numbers from 2^22 on do not fit four bytes: the excess bits are lost.

  /** The two numbers have the same code. */
  predicate SameCode(k: bv32, t: bv32) {
    k == t || (Long(k) && Long(t) && SameLow(k, t))
  }

  predicate Long(cp: bv32) { cp >= 0x10000 }

  predicate SameLow(k: bv32, t: bv32) { k & 0x3FFFFF == t & 0x3FFFFF }

  /** How long the code is that starts with this byte. */
  function LeadLength(c: bv8): nat { if c < 0x80 then 1 else if c < 0xE0 then 2 else if c < 0xF0 then 3 else 4 }

  lemma LeadFixesLength(cp: bv32)
    ensures LeadLength(Lead(cp)) == |Encode(cp)|
  {
    hide Encode;
  }

  lemma LeadBit21(cp: bv32)
    requires Long(cp)
    ensures Lead(cp) & 8 == 0 <==> cp & 0x200000 == 0
  {
  }

  function Low21(x: bv32): bv32 { x & 0x1FFFFF }

  predicate SameNext(k: bv32, t: bv32) { k & 0x200000 == 0 <==> t & 0x200000 == 0 }

  lemma LowBitsJoin(k: bv32, t: bv32)
    requires Low21(k) == Low21(t) && SameNext(k, t)
    ensures SameLow(k, t)
  {
  }

  lemma LowBitsFixLead(k: bv32, t: bv32)
    requires Long(k) && Long(t) && SameLow(k, t)
    ensures Lead(k) == Lead(t)
  {
  }

  lemma LowBitsFixCont(k: bv32, t: bv32)
    requires SameLow(k, t)
    ensures Cont(k) == Cont(t) && Cont(k >> 6) == Cont(t >> 6) && Cont(k >> 12) == Cont(t >> 12)
  {
  }

  lemma BytesFixLowBits(k: bv32, t: bv32)
    requires Long(k) && Long(t) && Lead(k) == Lead(t)
    requires Cont(k) == Cont(t) && Cont(k >> 6) == Cont(t >> 6) && Cont(k >> 12) == Cont(t >> 12)
    ensures SameLow(k, t)
  {
    BytesFix21(k, t);
    LeadFixesNext(k, t);
    hide *;
    LowBitsJoin(k, t);
  }

  lemma Value4IsLow21(cp: bv32)
    requires Long(cp)
    ensures Value4(Lead(cp), Cont(cp >> 12), Cont(cp >> 6), Cont(cp)) == Low21(cp)
  {
    Value4Back(cp);
    hide Lead, Cont, Value4;
  }

  lemma BytesFix21(k: bv32, t: bv32)
    requires Long(k) && Long(t) && Lead(k) == Lead(t)
    requires Cont(k) == Cont(t) && Cont(k >> 6) == Cont(t >> 6) && Cont(k >> 12) == Cont(t >> 12)
    ensures Low21(k) == Low21(t)
  {
    Value4IsLow21(k);
    Value4IsLow21(t);
    hide *;
  }

  lemma LeadFixesNext(k: bv32, t: bv32)
    requires Long(k) && Long(t) && Lead(k) == Lead(t)
    ensures SameNext(k, t)
  {
    LeadBit21(k);
    LeadBit21(t);
    hide Lead, Long;
  }

  lemma LengthOfLong(cp: bv32)
    ensures |Encode(cp)| == 4 <==> Long(cp)
  {
  }

  lemma LongCode(cp: bv32)
    requires Long(cp)
    ensures Encode(cp) == [Lead(cp), Cont(cp >> 12), Cont(cp >> 6), Cont(cp)]
  {
    hide Lead, Cont;
  }

  lemma DecodeShort(s: Bytes, pos: nat, cp: bv32)
    requires Holds(s, pos, cp) && !Long(cp)
    ensures Decode(s, pos).0 == cp
  {
    DecodeOne(s, pos, cp);
    hide Decode, Holds;
  }

  lemma HoldsItself(cp: bv32)
    ensures Holds(Encode(cp), 0, cp)
  {
    hide Encode;
    assert Encode(cp)[0..|Encode(cp)|] == Encode(cp);
  }

  lemma SameCodeIff(k: bv32, t: bv32)
    ensures Encode(k) == Encode(t) <==> SameCode(k, t)
  {
    LengthOfLong(k);
    LengthOfLong(t);
    hide Encode, Lead, Cont, Long, SameLow, Decode, Holds;
    if Long(k) && Long(t) {
      LongCode(k);
      LongCode(t);
      if SameLow(k, t) {
        LowBitsFixLead(k, t);
        LowBitsFixCont(k, t);
      }
      if Encode(k) == Encode(t) {
        LongBytes(k, t);
        BytesFixLowBits(k, t);
      }
    } else if Encode(k) == Encode(t) {
      HoldsItself(k);
      HoldsItself(t);
      HoldsSame(Encode(k), Encode(t), t);
      DecodeShort(Encode(k), 0, k);
      DecodeShort(Encode(k), 0, t);
    }
  }

  lemma HoldsSame(s: Bytes, s': Bytes, cp: bv32)
    requires s == s' && Holds(s', 0, cp)
    ensures Holds(s, 0, cp)
  {
  }

  lemma LongBytes(k: bv32, t: bv32)
    requires Long(k) && Long(t) && Encode(k) == Encode(t)
    ensures Lead(k) == Lead(t)
    ensures Cont(k) == Cont(t) && Cont(k >> 6) == Cont(t >> 6) && Cont(k >> 12) == Cont(t >> 12)
  {
    LongCode(k);
    LongCode(t);
    hide Encode, Lead, Cont, Long;
    assert Encode(k)[1] == Encode(t)[1] && Encode(k)[2] == Encode(t)[2] && Encode(k)[3] == Encode(t)[3];
  }

  /** No code is a proper prefix of another. */
  lemma CodesArePrefixFree(s: Bytes, k: bv32, t: bv32)
    requires Holds(s, 0, k) && Holds(s, 0, t)
    ensures Encode(k) == Encode(t) && SameCode(k, t)
  {
    HeldBytes(s, 0, k);
    HeldBytes(s, 0, t);
    LeadFixesLength(k);
    LeadFixesLength(t);
    hide Encode, Lead, Cont, SameCode, LeadLength;
    SameCodeIff(k, t);
  }

  /** The two texts have the same code, number by number. */
  ghost predicate Alike(a: Text, b: Text) {
    |a| == |b| && forall i | 0 <= i < |a| :: SameCode(a[i], b[i])
  }

  /** Only numbers of more than 21 bits can be taken for others: texts of which corresponding numbers
      are below 2^21, or one is below 2^16, are alike exactly if they are equal. */
  lemma AlikeIsEqual(a: Text, b: Text)
    requires |a| == |b| ==> forall i | 0 <= i < |a| :: !Long(b[i]) || (Narrow(a[i]) && Narrow(b[i]))
    ensures Alike(a, b) <==> a == b
  {
    hide SameCode, Long, Narrow;
    forall i | 0 <= i < |a| && |a| == |b| ensures SameCode(a[i], b[i]) <==> a[i] == b[i] {
      SameCodeOfNarrow(a[i], b[i]);
    }
  }

  lemma SameCodeOfNarrow(k: bv32, t: bv32)
    requires !Long(t) || (Narrow(k) && Narrow(t))
    ensures SameCode(k, t) <==> k == t
  {
    if Narrow(k) && Narrow(t) {
      Mask22(k);
      Mask22(t);
    }
    hide Narrow, Long;
  }

  lemma Mask22(cp: bv32)
    requires Narrow(cp)
    ensures cp & 0x3FFFFF == cp
  {
  }

  lemma {:induction false} AlikeEncodes(a: Text, b: Text)
    requires Alike(a, b)
    ensures EncodeAll(a) == EncodeAll(b)
    decreases |a|
  {
    hide Encode, SameCode;
    if a != [] {
      SameCodeIff(a[0], b[0]);
      assert SameCode(a[0], b[0]);
      AlikeEncodes(a[1..], b[1..]);
    }
  }

  lemma {:induction false} PrefixAgrees(t: Text, w: Text)
    requires OccursAt(EncodeAll(t), EncodeAll(w), 0)
    ensures |w| <= |t| && Alike(t[..|w|], w)
    decreases |w|
  {
    if w != [] {
      assert t != [];
      var c, k := Encode(t[0]), Encode(w[0]);
      var cs, ks := EncodeAll(t[1..]), EncodeAll(w[1..]);
      assert EncodeAll(t) == c + cs && EncodeAll(w) == k + ks;
      PrefixPieces(c, cs, k, ks);
      hide Encode, EncodeAll, SameCode, Alike;
      CodesArePrefixFree(c + cs, w[0], t[0]);
      SameCodeIff(t[0], w[0]);
      PrefixAgrees(t[1..], w[1..]);
      hide *;
      ConsAlike(t, w);
    }
  }

  lemma ConsAlike(t: Text, w: Text)
    requires t != [] && w != [] && SameCode(t[0], w[0])
    requires |w| <= |t| && Alike(t[1..][..|w| - 1], w[1..])
    ensures Alike(t[..|w|], w)
  {
    hide SameCode;
    forall i | 0 <= i < |w| ensures SameCode(t[..|w|][i], w[i]) {
      if i > 0 { assert SameCode(t[1..][..|w| - 1][i - 1], w[1..][i - 1]); }
    }
  }

  lemma PrefixPieces(c: Bytes, cs: Bytes, k: Bytes, ks: Bytes)
    requires OccursAt(c + cs, k + ks, 0)
    ensures |k| <= |c + cs| && (c + cs)[0..|k|] == k && (c + cs)[0..|c|] == c
    ensures c == k ==> OccursAt(cs, ks, 0)
  {
    var s, b := c + cs, k + ks;
    assert s[0..|b|][..|k|] == b[..|k|] == k;
    assert s[0..|b|][|k|..] == b[|k|..] == ks;
  }

  lemma {:induction false} EncodeAllConcat(a: Text, b: Text)
    ensures EncodeAll(a + b) == EncodeAll(a) + EncodeAll(b)
    decreases |a|
  {
    hide Encode;
    if a == [] {
      assert a + b == b;
    } else {
      assert (a + b)[1..] == a[1..] + b;
      EncodeAllConcat(a[1..], b);
    }
  }

  /** Bytes inside a code point continue it, so an occurrence starts where a code point starts. */
  lemma InnerBytesContinue(cp: bv32, p: nat)
    requires 0 < p < |Encode(cp)|
    ensures IsCont(Encode(cp)[p])
  {
    ContIsCont(cp);
    ContIsCont(cp >> 6);
    ContIsCont(cp >> 12);
    hide Cont, IsCont, Lead;
  }

  /** Wherever the bytes of `w` occur in the bytes of `t`, the code points of `w` occur in `t`. */
  lemma {:induction false} OccurrenceIsAligned(t: Text, w: Text, p: nat) returns (j: nat)
    requires w != [] && OccursAt(EncodeAll(t), EncodeAll(w), p)
    ensures j + |w| <= |t| && Alike(t[j..j + |w|], w) && p == |EncodeAll(t[..j])|
    decreases |t|
  {
    StartIsNoCont(t, w, p);
    var n := |Encode(t[0])|;
    if p == 0 {
      PrefixAgrees(t, w);
      j := 0;
      assert t[..0] == [];
    } else if p < n {
      InnerBytesContinue(t[0], p);
      assert false;
    } else {
      EncodeAllCons(t);
      OccursInTail(Encode(t[0]), EncodeAll(t[1..]), EncodeAll(w), p);
      hide *;
      var i := OccurrenceIsAligned(t[1..], w, p - n);
      j := i + 1;
      AlignedInTail(t, w, i);
    }
  }

  lemma AlignedInTail(t: Text, w: Text, i: nat)
    requires i + |w| < |t| && Alike(t[1..][i..i + |w|], w)
    ensures Alike(t[i + 1..i + 1 + |w|], w)
    ensures |EncodeAll(t[..i + 1])| == |Encode(t[0])| + |EncodeAll(t[1..][..i])|
  {
    ConsSlice(t, |w|, i);
    EncodeAllCons(t[..i + 1]);
    hide *;
  }

  lemma EncodeAllCons(t: Text)
    requires t != []
    ensures EncodeAll(t) == Encode(t[0]) + EncodeAll(t[1..])
  {
    hide Encode;
  }

  lemma ConsSlice<T>(t: seq<T>, n: nat, i: nat)
    requires i + n < |t|
    ensures t[i + 1..i + 1 + n] == t[1..][i..i + n]
    ensures t[..i + 1][0] == t[0] && t[..i + 1][1..] == t[1..][..i]
  {
  }

  lemma StartIsNoCont(t: Text, w: Text, p: nat)
    requires w != [] && OccursAt(EncodeAll(t), EncodeAll(w), p)
    ensures t != []
    ensures p < |Encode(t[0])| ==> !IsCont(Encode(t[0])[p])
  {
    var s, b := EncodeAll(t), EncodeAll(w);
    LeadIsNoCont(w[0]);
    hide IsCont, Lead, Encode;
    assert b[0] == Lead(w[0]);
    assert s[p..p + |b|][0] == s[p];
  }

  lemma OccursInTail(c: Bytes, cs: Bytes, b: Bytes, p: nat)
    requires |c| <= p && OccursAt(c + cs, b, p)
    ensures OccursAt(cs, b, p - |c|)
  {
    assert cs[p - |c|..p - |c| + |b|] == (c + cs)[p..p + |b|];
  }

  lemma OccurrenceIsFound(t: Text, w: Text, j: nat)
    requires j + |w| <= |t| && Alike(t[j..j + |w|], w)
    ensures OccursAt(EncodeAll(t), EncodeAll(w), |EncodeAll(t[..j])|)
    ensures |EncodeAll(t)| == |EncodeAll(t[..j])| + |EncodeAll(w)| + |EncodeAll(t[j + |w|..])|
    ensures EncodeAll(t) == EncodeAll(t[..j]) + EncodeAll(w) + EncodeAll(t[j + |w|..])
  {
    var v := t[j..j + |w|];
    AlikeEncodes(v, w);
    hide Alike, EncodeAll;
    assert t == (t[..j] + v) + t[j + |w|..];
    EncodeAllConcat(t[..j] + v, t[j + |w|..]);
    EncodeAllConcat(t[..j], v);
  }

  // ------------------------------------------------------------------ matchKeyword

  /** `std::isalnum` in the C locale. */
  predicate Alnum(c: bv32) { 48 <= c <= 57 || 65 <= c <= 90 || 97 <= c <= 122 }

  predicate AlnumByte(c: bv8) { 48 <= c <= 57 || 65 <= c <= 90 || 97 <= c <= 122 }

  /** An occurrence that counts: any for a keyword that starts with a multi-byte code, a whole word
      otherwise. */
  ghost predicate MatchesAt(s: Bytes, w: Bytes, p: nat) {
    && w != [] && OccursAt(s, w, p)
    && (w[0] >= 0x80 ||
        ((p == 0 || !AlnumByte(s[p - 1])) && (p + |w| >= |s| || !AlnumByte(s[p + |w|]))))
  }

  ghost predicate Matches(s: Bytes, w: Bytes) {
    exists p: nat :: MatchesAt(s, w, p)
  }

  /** `std::string::find`: the first occurrence from `start` on. */
  method Find(s: Bytes, w: Bytes, start: nat) returns (r: Option<nat>)
    ensures r.Some? ==> start <= r.value && OccursAt(s, w, r.value)
    ensures forall q: nat | start <= q && OccursAt(s, w, q) :: r.Some? && r.value <= q
  {
    var p := start;
    while p + |w| <= |s|
      invariant start <= p
      invariant forall q: nat | start <= q < p :: !OccursAt(s, w, q)
    {
      if s[p..p + |w|] == w { return Some(p); }
      p := p + 1;
    }
    return None;
  }

  method MatchKeyword(text: Bytes, keyword: Bytes) returns (matched: bool)
    ensures matched <==> Matches(text, keyword)
  {
    if keyword == [] { return false; }
    var pos := 0;
    while true
      invariant forall q: nat | q < pos :: !MatchesAt(text, keyword, q)
      decreases |text| + 1 - pos
    {
      var found := Find(text, keyword, pos);
      if found.None? { return false; }
      pos := found.value;
      if keyword[0] >= 0x80 {
        assert MatchesAt(text, keyword, pos);
        return true;
      }
      var leftOk := pos == 0 || !AlnumByte(text[pos - 1]);
      var end := pos + |keyword|;
      var rightOk := end >= |text| || !AlnumByte(text[end]);
      if leftOk && rightOk {
        assert MatchesAt(text, keyword, pos);
        return true;
      }
      pos := pos + 1;
    }
  }

  /** The same on code points. */
  ghost predicate WordAt(t: Text, w: Text, j: nat) {
    && w != [] && j + |w| <= |t| && Alike(t[j..j + |w|], w)
    && (w[0] >= 0x80 ||
        ((j == 0 || !Alnum(t[j - 1])) && (j + |w| == |t| || !Alnum(t[j + |w|]))))
  }

  lemma LeadIsAlnum(cp: bv32)
    ensures AlnumByte(Lead(cp)) <==> Alnum(cp)
    ensures Lead(cp) >= 0x80 <==> cp >= 0x80
  {
  }

  lemma LastIsAlnum(cp: bv32)
    ensures AlnumByte(Encode(cp)[|Encode(cp)| - 1]) <==> Alnum(cp)
  {
    LeadIsAlnum(cp);
    ContIsNotAlnum(cp);
    hide Lead, Cont, AlnumByte;
  }

  lemma ContIsNotAlnum(x: bv32)
    ensures !AlnumByte(Cont(x))
  {
  }

  /** The byte before a code point, and the first byte of the text after one. */
  lemma ByteBefore(t: Text)
    ensures EncodeAll(t) == [] <==> t == []
    ensures t != [] ==> (AlnumByte(EncodeAll(t)[|EncodeAll(t)| - 1]) <==> Alnum(t[|t| - 1]))
  {
    if t != [] {
      var last := t[|t| - 1];
      LastIsAlnum(last);
      hide Encode, AlnumByte, Alnum;
      EncodeAllConcat(t[..|t| - 1], [last]);
      assert t == t[..|t| - 1] + [last];
      assert EncodeAll([last]) == Encode(last) + EncodeAll([]);
    }
  }

  lemma ByteAfter(t: Text)
    ensures EncodeAll(t) == [] <==> t == []
    ensures t != [] ==> (AlnumByte(EncodeAll(t)[0]) <==> Alnum(t[0]))
  {
    if t != [] {
      LeadIsAlnum(t[0]);
      hide AlnumByte, Alnum, Lead;
    }
  }

  /** The bytes next to an occurrence are alphanumeric exactly when the code points next to it are. */
  lemma NeighboursAgree(t: Text, w: Text, j: nat)
    requires w != [] && j + |w| <= |t| && Alike(t[j..j + |w|], w)
    ensures var s, p, e := EncodeAll(t), |EncodeAll(t[..j])|, |EncodeAll(t[..j])| + |EncodeAll(w)|;
            && (p == 0 <==> j == 0) && e <= |s| && (e == |s| <==> j + |w| == |t|)
            && (j > 0 ==> (AlnumByte(s[p - 1]) <==> Alnum(t[j - 1])))
            && (j + |w| < |t| ==> (AlnumByte(s[e]) <==> Alnum(t[j + |w|])))
  {
    hide Encode, EncodeAll, AlnumByte, Alnum, OccursAt, Alike;
    OccurrenceIsFound(t, w, j);
    ByteBefore(t[..j]);
    ByteAfter(t[j + |w|..]);
  }

  lemma FirstByte(w: Text)
    requires w != []
    ensures EncodeAll(w) != [] && (EncodeAll(w)[0] >= 0x80 <==> w[0] >= 0x80)
  {
    LeadIsAlnum(w[0]);
    hide Lead;
  }

  /** Searching bytes is searching code points, for any 32-bit numbers: a keyword matches an encoded
      text if and only if its code points, or numbers of the same code, occur in a row, as a whole
      word when the keyword starts in ASCII. */
  lemma MatchingIsByCodePoint(t: Text, w: Text)
    ensures Matches(EncodeAll(t), EncodeAll(w)) <==> exists j: nat :: WordAt(t, w, j)
  {
    var s, b := EncodeAll(t), EncodeAll(w);
    assert w == [] ==> b == [];
    hide EncodeAll, WordAt, AlnumByte, Alnum, Alike;
    if Matches(s, b) {
      var p: nat :| MatchesAt(s, b, p);
      var j := OccurrenceIsAligned(t, w, p);
      hide MatchesAt;
      MatchCorresponds(t, w, j);
    }
    if j: nat :| WordAt(t, w, j) {
      hide MatchesAt;
      OccurrenceOfWord(t, w, j);
      MatchCorresponds(t, w, j);
    }
  }

  lemma OccurrenceOfWord(t: Text, w: Text, j: nat)
    requires WordAt(t, w, j)
    ensures w != [] && j + |w| <= |t| && Alike(t[j..j + |w|], w)
  {
    hide Alnum, Alike;
  }

  /** An occurrence counts among bytes exactly when it counts among code points. */
  lemma MatchCorresponds(t: Text, w: Text, j: nat)
    requires w != [] && j + |w| <= |t| && Alike(t[j..j + |w|], w)
    ensures WordAt(t, w, j) <==> MatchesAt(EncodeAll(t), EncodeAll(w), |EncodeAll(t[..j])|)
  {
    hide Encode, EncodeAll, AlnumByte, Alnum, Alike;
    FirstByte(w);
    OccurrenceIsFound(t, w, j);
    NeighboursAgree(t, w, j);
  }

  // ------------------------------------------------------------------ CJK bigrams

  predicate IsCJK(cp: bv32) { 0x4E00 <= cp <= 0x9FFF || 0x3400 <= cp <= 0x4DBF }

  /** The blocks CJK Extension A and CJK Unified Ideographs. */
  const CJK_BLOCKS: seq<(bv32, bv32)> := [(0x3400, 0x4DBF), (0x4E00, 0x9FFF)]

  ghost predicate InBlocks(cp: bv32) {
    exists i | 0 <= i < |CJK_BLOCKS| :: CJK_BLOCKS[i].0 <= cp <= CJK_BLOCKS[i].1
  }

  lemma CjkIsInBlocks(cp: bv32)
    ensures IsCJK(cp) <==> InBlocks(cp)
  {
    assert |CJK_BLOCKS| == 2 && CJK_BLOCKS[0] == (0x3400, 0x4DBF) && CJK_BLOCKS[1] == (0x4E00, 0x9FFF);
  }

  /** A bigram finds its two code points side by side in any encoded text, and nothing else. */
  lemma BigramMatchIsExact(t: Text, x: bv32, y: bv32)
    requires IsCJK(x) && IsCJK(y)
    ensures Matches(EncodeAll(t), Encode(x) + Encode(y)) <==>
            exists j: nat :: j + 1 < |t| && t[j] == x && t[j + 1] == y
  {
    var w := [x, y];
    PairBytes(x, y);
    hide Encode, EncodeAll, IsCJK, WordAt;
    MatchingIsByCodePoint(t, w);
    if j: nat :| WordAt(t, w, j) {
      PairAt(t, x, y, j);
    }
    if j: nat :| j + 1 < |t| && t[j] == x && t[j + 1] == y {
      PairAt(t, x, y, j);
      assert WordAt(t, w, j);
    }
  }

  lemma CjkIsShort(cp: bv32)
    requires IsCJK(cp)
    ensures !Long(cp) && cp >= 0x80
  {
  }

  lemma PairAt(t: Text, x: bv32, y: bv32, j: nat)
    requires IsCJK(x) && IsCJK(y)
    ensures WordAt(t, [x, y], j) <==> j + 1 < |t| && t[j] == x && t[j + 1] == y
  {
    CjkIsShort(x);
    CjkIsShort(y);
    hide IsCJK, Alike, Long, Alnum;
    var w := [x, y];
    assert w[0] == x && w[0] >= 0x80;
    if j + 1 < |t| {
      var part := t[j..j + |w|];
      assert part == [t[j], t[j + 1]];
      AlikeIsEqual(part, w);
      assert part == w <==> part[0] == w[0] && part[1] == w[1];
    }
  }

  lemma PairBytes(x: bv32, y: bv32)
    ensures EncodeAll([x, y]) == Encode(x) + Encode(y)
  {
    hide Encode;
    assert [x, y][1..] == [y] && [y][1..] == [];
    assert EncodeAll([y]) == Encode(y) + EncodeAll([]);
  }

  ghost predicate CjkPairAt(cps: Text, j: nat) {
    j + 1 < |cps| && InBlocks(cps[j]) && InBlocks(cps[j + 1])
  }

  ghost predicate IsBigramOf(k: Bytes, cps: Text, upTo: nat) {
    exists j: nat :: j < upTo && BigramAt(k, cps, j)
  }

  ghost predicate BigramAt(k: Bytes, cps: Text, j: nat) {
    CjkPairAt(cps, j) && k == Encode(cps[j]) + Encode(cps[j + 1])
  }

  /** The bigram part of `rebuildSkillKeywordIndex`: the keywords a description contributes. */
  method DescriptionBigrams(desc: Bytes) returns (keywords: set<Bytes>)
    ensures forall k :: k in keywords <==> IsBigramOf(k, DecodeFrom(desc, 0), |DecodeFrom(desc, 0)|)
  {
    hide Encode, Decode, IsCJK, InBlocks, IsBigramOf;
    var pos, cps: Text := 0, [];
    while pos < |desc|
      invariant pos <= |desc|
      invariant cps + DecodeFrom(desc, pos) == DecodeFrom(desc, 0)
    {
      var cp, next := DecodeUtf8(desc, pos);
      cps, pos := cps + [cp], next;
    }
    assert cps == DecodeFrom(desc, 0);
    keywords := {};
    assert forall k :: !IsBigramOf(k, cps, 0) by { NoBigramsYet(cps); }
    var j := 0;
    while j + 1 < |cps|
      invariant j == 0 || j < |cps|
      invariant forall k :: k in keywords <==> IsBigramOf(k, cps, j)
    {
      OneMorePlace(cps, j);
      if IsCJK(cps[j]) && IsCJK(cps[j + 1]) {
        keywords := keywords + {Encode(cps[j]) + Encode(cps[j + 1])};
      }
      j := j + 1;
    }
    LastPlace(cps, j);
  }

  lemma NoBigramsYet(cps: Text)
    ensures forall k :: !IsBigramOf(k, cps, 0)
  {
  }

  lemma OneMorePlace(cps: Text, j: nat)
    requires j + 1 < |cps|
    ensures forall k :: IsBigramOf(k, cps, j + 1) <==>
            IsBigramOf(k, cps, j)
            || (IsCJK(cps[j]) && IsCJK(cps[j + 1]) && k == Encode(cps[j]) + Encode(cps[j + 1]))
  {
    CjkIsInBlocks(cps[j]);
    CjkIsInBlocks(cps[j + 1]);
    hide Encode, IsCJK, InBlocks, IsBigramOf;
    forall k
      ensures IsBigramOf(k, cps, j + 1) <==>
              IsBigramOf(k, cps, j)
              || (IsCJK(cps[j]) && IsCJK(cps[j + 1]) && k == Encode(cps[j]) + Encode(cps[j + 1]))
    {
      LaterPlace(k, cps, j);
    }
  }

  lemma LaterPlace(k: Bytes, cps: Text, j: nat)
    ensures IsBigramOf(k, cps, j + 1) <==> IsBigramOf(k, cps, j) || BigramAt(k, cps, j)
  {
    hide BigramAt;
  }

  lemma LastPlace(cps: Text, j: nat)
    requires j <= |cps| <= j + 1
    ensures forall k :: IsBigramOf(k, cps, j) <==> IsBigramOf(k, cps, |cps|)
  {
    forall k, i: nat | i < |cps| && BigramAt(k, cps, i) ensures i < j { hide Encode, InBlocks; }
    hide BigramAt;
  }

  /** `std::tolower` in the C locale, on bytes and on code points. */
  function LowerByte(c: bv8): bv8 { if 65 <= c <= 90 then c + 32 else c }

  function LowerCode(cp: bv32): bv32 { if 65 <= cp <= 90 then cp + 32 else cp }

  function LowerBytes(s: Bytes): Bytes { seq(|s|, i requires 0 <= i < |s| => LowerByte(s[i])) }

  function LowerText(t: Text): (r: Text)
    ensures |r| == |t|
  {
    seq(|t|, i requires 0 <= i < |t| => LowerCode(t[i]))
  }

  ghost predicate SharePair(d: Text, t: Text) {
    exists i: nat, j: nat :: CjkPairAt(d, i) && j + 1 < |t| && t[j] == d[i] && t[j + 1] == d[i + 1]
  }

  /** From description to question: some bigram keyword of a description matches a lower-cased
      question if and only if both contain the same two CJK characters side by side. */
  lemma BigramsFindSharedPairs(d: Text, t: Text)
    requires AllNarrow(d)
    ensures (exists k :: IsBigramOf(k, DecodeFrom(EncodeAll(d), 0), |d|) && Matches(LowerBytes(EncodeAll(t)), k))
            <==> SharePair(d, t)
  {
    RoundTripIffNarrow(d);
    LoweringCommutes(t);
    hide *;
    if k :| IsBigramOf(k, d, |d|) && Matches(EncodeAll(LowerText(t)), k) {
      BigramSharesPair(d, t, k);
    }
    if SharePair(d, t) {
      var k := SharedPairHasBigram(d, t);
    }
  }

  lemma BigramSharesPair(d: Text, t: Text, k: Bytes)
    requires IsBigramOf(k, d, |d|) && Matches(EncodeAll(LowerText(t)), k)
    ensures SharePair(d, t)
  {
    hide Encode, EncodeAll, IsCJK, InBlocks, Matches, LowerText;
    var low := LowerText(t);
    var i: nat :| i < |d| && BigramAt(k, d, i);
    CjkIsInBlocks(d[i]);
    CjkIsInBlocks(d[i + 1]);
    BigramMatchIsExact(low, d[i], d[i + 1]);
    var j: nat :| j + 1 < |low| && low[j] == d[i] && low[j + 1] == d[i + 1];
    LoweringKeepsCJK(t, j);
    LoweringKeepsCJK(t, j + 1);
  }

  lemma SharedPairHasBigram(d: Text, t: Text) returns (k: Bytes)
    requires SharePair(d, t)
    ensures IsBigramOf(k, d, |d|) && Matches(EncodeAll(LowerText(t)), k)
  {
    hide Encode, EncodeAll, IsCJK, InBlocks, Matches, LowerText;
    var low := LowerText(t);
    var i: nat, j: nat :| CjkPairAt(d, i) && j + 1 < |t| && t[j] == d[i] && t[j + 1] == d[i + 1];
    LoweringKeepsCJK(t, j);
    LoweringKeepsCJK(t, j + 1);
    CjkIsInBlocks(d[i]);
    CjkIsInBlocks(d[i + 1]);
    BigramMatchIsExact(low, d[i], d[i + 1]);
    assert low[j] == d[i] && low[j + 1] == d[i + 1];
    k := Encode(d[i]) + Encode(d[i + 1]);
    assert BigramAt(k, d, i);
  }

  lemma LoweringKeepsCJK(t: Text, j: nat)
    requires j < |t|
    ensures IsCJK(t[j]) || IsCJK(LowerText(t)[j]) ==> LowerText(t)[j] == t[j]
  {
  }

  /** Lower-casing the bytes of a text is lower-casing its code points. */
  lemma {:induction false} LoweringCommutes(t: Text)
    ensures LowerBytes(EncodeAll(t)) == EncodeAll(LowerText(t))
    decreases |t|
  {
    if t != [] {
      LoweringOne(t[0]);
      LoweringCommutes(t[1..]);
      hide Encode, LowerByte, LowerCode;
      assert LowerText(t)[1..] == LowerText(t[1..]);
      assert LowerBytes(Encode(t[0]) + EncodeAll(t[1..])) == LowerBytes(Encode(t[0])) + LowerBytes(EncodeAll(t[1..]));
    } else {
      assert LowerText(t) == [] && LowerBytes([]) == [];
    }
  }

  lemma LoweringOne(cp: bv32)
    ensures LowerBytes(Encode(cp)) == Encode(LowerCode(cp))
  {
    LowerLead(cp);
    LowerCont(cp);
    LowerCont(cp >> 6);
    LowerCont(cp >> 12);
    LowerHigh(cp);
    hide Lead, Cont, LowerByte, LowerCode;
  }

  lemma LowerLead(cp: bv32)
    ensures LowerByte(Lead(cp)) == Lead(LowerCode(cp))
  {
  }

  lemma LowerCont(x: bv32)
    ensures LowerByte(Cont(x)) == Cont(x)
  {
  }

  lemma LowerHigh(cp: bv32)
    ensures if cp < 0x80 then LowerCode(cp) < 0x80 else LowerCode(cp) == cp
  {
  }
}
