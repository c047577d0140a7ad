/** Mnemonic phrases as in BIP 39: entropy and checksum bits in groups of eleven, one word per group. */
module Mnemonic {
  import opened Arith
  import opened Primitives
  import opened BitStrings
  import opened Radix

  const WORDS: nat := 2048
  const INDEX_BITS: nat := 11

  /** The word list and the hash the checksum bits come from. */
  datatype Scheme = Scheme(words: seq<string>, hash: seq<Byte> -> seq<Byte>) {
    /** 2048 different words without white space, and hashes of 32 bytes. */
    ghost predicate Good() {
      && |words| == WORDS
      && (forall i, j :: 0 <= i < j < |words| ==> words[i] != words[j])
      && (forall i :: 0 <= i < |words| ==> IsWord(words[i]))
      && (forall data :: |hash(data)| == 32)
    }
  }

  predicate IsWord(w: string) {
    w != "" && forall i :: 0 <= i < |w| ==> !IsSpace(w[i])
  }

  // ---------------------------------------------------------------------------
  // Words and phrases
  // ---------------------------------------------------------------------------

  function Join(words: seq<string>): string {
    if words == [] then "" else if |words| == 1 then words[0] else words[0] + " " + Join(words[1..])
  }

  function WordLength(s: string): (n: nat)
    ensures n <= |s| && (forall i :: 0 <= i < n ==> !IsSpace(s[i])) && (n < |s| ==> IsSpace(s[n]))
    ensures s != "" && !IsSpace(s[0]) ==> 0 < n
  {
    if s == "" || IsSpace(s[0]) then 0 else 1 + WordLength(s[1..])
  }

  function Split(s: string): (words: seq<string>)
    ensures forall i :: 0 <= i < |words| ==> IsWord(words[i])
    decreases |s|
  {
    if s == "" then []
    else if IsSpace(s[0]) then Split(s[1..])
    else [s[..WordLength(s)]] + Split(s[WordLength(s)..])
  }

  lemma FirstWord(w: string, rest: string)
    requires IsWord(w) && (rest == "" || IsSpace(rest[0]))
    ensures Split(w + rest) == [w] + Split(rest)
  {
    var s := w + rest;
    WordEnds(w, rest);
    assert s[..|w|] == w && s[|w|..] == rest;
  }

  lemma {:induction false} WordEnds(w: string, rest: string)
    requires forall i :: 0 <= i < |w| ==> !IsSpace(w[i])
    requires rest == "" || IsSpace(rest[0])
    ensures WordLength(w + rest) == |w|
    decreases |w|
  {
    if w == "" {
      assert w + rest == rest;
    } else {
      WordEnds(w[1..], rest);
      assert (w + rest)[1..] == w[1..] + rest;
    }
  }

  lemma {:induction false} SplitJoin(words: seq<string>)
    requires forall i :: 0 <= i < |words| ==> IsWord(words[i])
    ensures Split(Join(words)) == words
    decreases |words|
  {
    hide IsWord;
    if |words| == 1 {
      FirstWord(words[0], "");
      assert words[0] + "" == words[0];
      assert words == [words[0]] + [];
    } else if words != [] {
      var rest := " " + Join(words[1..]);
      FirstWord(words[0], rest);
      SplitJoin(words[1..]);
      assert rest[1..] == Join(words[1..]);
      assert words[0] + " " + Join(words[1..]) == words[0] + rest;
      assert words == [words[0]] + words[1..];
    }
  }

  /** Position of a word in the list. */
  function IndexOf(words: seq<string>, w: string, from: nat): (i: Option<nat>)
    requires from <= |words|
    ensures i.Some? ==> from <= i.value < |words| && words[i.value] == w
    ensures i.None? ==> forall k :: from <= k < |words| ==> words[k] != w
    decreases |words| - from
  {
    if from == |words| then None else if words[from] == w then Some(from) else IndexOf(words, w, from + 1)
  }

  predicate AllKnown(words: seq<string>, phrase: seq<string>) {
    forall i :: 0 <= i < |phrase| ==> IndexOf(words, phrase[i], 0).Some?
  }

  function Indices(words: seq<string>, phrase: seq<string>): (s: seq<nat>)
    requires AllKnown(words, phrase)
    ensures |s| == |phrase| && forall i :: 0 <= i < |phrase| ==> s[i] < |words| && words[s[i]] == phrase[i]
  {
    seq(|phrase|, i requires 0 <= i < |phrase| => IndexOf(words, phrase[i], 0).value)
  }

  function Phrase(words: seq<string>, indices: seq<nat>): (s: seq<string>)
    requires forall i :: 0 <= i < |indices| ==> indices[i] < |words|
    ensures |s| == |indices| && forall i :: 0 <= i < |indices| ==> s[i] == words[indices[i]]
  {
    seq(|indices|, i requires 0 <= i < |indices| => words[indices[i]])
  }

  lemma PhraseIndices(words: seq<string>, indices: seq<nat>)
    requires forall i, j :: 0 <= i < j < |words| ==> words[i] != words[j]
    requires forall i :: 0 <= i < |indices| ==> indices[i] < |words|
    ensures AllKnown(words, Phrase(words, indices)) && Indices(words, Phrase(words, indices)) == indices
  {
    var phrase := Phrase(words, indices);
    forall i | 0 <= i < |indices|
      ensures IndexOf(words, phrase[i], 0) == Some(indices[i])
    {
      var k := IndexOf(words, phrase[i], 0);
      assert k.Some?;
      assert words[k.value] == words[indices[i]];
    }
  }

  // ---------------------------------------------------------------------------
  // Specification
  // ---------------------------------------------------------------------------

  /** 16, 20, 24, 28 or 32 bytes. */
  predicate LegalEntropy(n: nat) {
    128 <= 8 * n <= 256 && 8 * n % 32 == 0
  }

  predicate LegalCount(n: nat) {
    n == 12 || n == 15 || n == 18 || n == 21 || n == 24
  }

  /** The entropy bits and one checksum bit per 32 of them. */
  function AllBits(z: Scheme, entropy: seq<Byte>): (s: seq<bool>)
    requires |z.hash(entropy)| == 32 && LegalEntropy(|entropy|)
    ensures |s| == INDEX_BITS * (|entropy| / 4 * 3)
  {
    Stream(entropy, 8) + Stream(z.hash(entropy), 8)[..|entropy| / 4]
  }

  function IndicesOf(z: Scheme, entropy: seq<Byte>): (s: seq<nat>)
    requires |z.hash(entropy)| == 32 && LegalEntropy(|entropy|)
    ensures |s| == |entropy| / 4 * 3
  {
    Cut(AllBits(z, entropy), INDEX_BITS, |entropy| / 4 * 3)
  }

  lemma ElevenBits()
    ensures Pow2(11) == 2048 && Pow2(8) == 256
  {
    assert Pow2(4) == 16;
    assert Pow2(8) == 256;
  }

  lemma IndicesFit(z: Scheme, entropy: seq<Byte>)
    requires |z.hash(entropy)| == 32 && LegalEntropy(|entropy|)
    ensures Fit(IndicesOf(z, entropy), 11) && Stream(IndicesOf(z, entropy), 11) == AllBits(z, entropy)
    ensures forall i :: 0 <= i < |IndicesOf(z, entropy)| ==> IndicesOf(z, entropy)[i] < WORDS
  {
    hide Stream, Cut, Pow2;
    CutStream(AllBits(z, entropy), 11, |entropy| / 4 * 3);
    ElevenBits();
  }

  function ToWords(z: Scheme, entropy: seq<Byte>): (s: seq<string>)
    requires |z.words| == WORDS && |z.hash(entropy)| == 32 && LegalEntropy(|entropy|)
  {
    IndicesFit(z, entropy);
    Phrase(z.words, IndicesOf(z, entropy))
  }

  function ToMnemonic(z: Scheme, entropy: seq<Byte>): Option<string>
    requires |z.words| == WORDS && |z.hash(entropy)| == 32
  {
    if LegalEntropy(|entropy|) then Some(Join(ToWords(z, entropy))) else None
  }

  lemma EntropyBytes(bits: seq<bool>, n: nat)
    requires 32 * n <= |bits|
    ensures var bytes := Cut(bits[..32 * n], 8, 4 * n);
            Fit(bytes, 8) && Stream(bytes, 8) == bits[..32 * n] && forall i :: 0 <= i < 4 * n ==> bytes[i] < 0x100
  {
    hide Cut, Stream, Pow2;
    CutStream(bits[..32 * n], 8, 4 * n);
    ElevenBits();
  }

  /** The leading 32 of every 33 bits, as bytes. */
  function EntropyOf(bits: seq<bool>, n: nat): (e: seq<Byte>)
    requires 32 * n <= |bits|
    ensures e == Cut(bits[..32 * n], 8, 4 * n)
  {
    EntropyBytes(bits, n);
    var bytes := Cut(bits[..32 * n], 8, 4 * n);
    seq<Byte>(|bytes|, i requires 0 <= i < |bytes| => bytes[i])
  }

  /** A wrong number of words, an unknown word and a wrong checksum are refused. */
  function ToEntropy(z: Scheme, mnemonic: string): Option<seq<Byte>>
    requires z.Good()
  {
    var phrase := Split(mnemonic);
    if !LegalCount(|phrase|) || !AllKnown(z.words, phrase) then None
    else
      var bits, n := Stream(Indices(z.words, phrase), INDEX_BITS), |phrase| / 3;
      var entropy := EntropyOf(bits, n);
      if bits[32 * n..] == Stream(z.hash(entropy), 8)[..n] then Some(entropy) else None
  }

  // ---------------------------------------------------------------------------
  // Round trips
  // ---------------------------------------------------------------------------

  lemma BytesFit(b: seq<Byte>)
    ensures Fit(b, 8)
  {
    ElevenBits();
  }

  lemma ToWordsAreWords(z: Scheme, entropy: seq<Byte>)
    requires z.Good() && LegalEntropy(|entropy|)
    ensures forall i :: 0 <= i < |ToWords(z, entropy)| ==> IsWord(ToWords(z, entropy)[i])
  {
    hide IndicesOf, IsWord;
    IndicesFit(z, entropy);
  }

  /** Main result: the phrase of legal entropy leads back to the entropy. */
  lemma EntropyComesBack(z: Scheme, entropy: seq<Byte>)
    requires z.Good() && LegalEntropy(|entropy|)
    ensures ToEntropy(z, ToMnemonic(z, entropy).value) == Some(entropy)
  {
    hide Split, Join, Stream, Cut, IsWord, IndicesOf, Pow2, Indices, Phrase, AllKnown;
    var phrase := ToWords(z, entropy);
    ToWordsAreWords(z, entropy);
    SplitJoin(phrase);
    IndicesFit(z, entropy);
    PhraseIndices(z.words, IndicesOf(z, entropy));
    var bits, n := AllBits(z, entropy), |entropy| / 4;
    CountsMatch(|entropy|);
    BytesFit(entropy);
    assert bits[..32 * n] == Stream(entropy, 8);
    assert bits[32 * n..] == Stream(z.hash(entropy), 8)[..n];
    EntropyBytes(bits, n);
    StreamInjective(EntropyOf(bits, n), entropy, 8);
  }

  lemma CountsMatch(n: nat)
    requires LegalEntropy(n)
    ensures LegalCount(n / 4 * 3) && n / 4 * 3 / 3 == n / 4 && 4 * (n / 4) == n
  {
  }

  /** Main result: an accepted phrase is the phrase of the entropy it leads to. */
  lemma PhraseComesBack(z: Scheme, mnemonic: string)
    requires z.Good() && ToEntropy(z, mnemonic).Some?
    ensures var entropy := ToEntropy(z, mnemonic).value;
            LegalEntropy(|entropy|) && ToWords(z, entropy) == Split(mnemonic)
  {
    hide Split, Join, Stream, Cut, IsWord, IndicesOf, Pow2, AllKnown;
    var phrase := Split(mnemonic);
    var indices, n := Indices(z.words, phrase), |phrase| / 3;
    var bits := Stream(indices, 11);
    var entropy := EntropyOf(bits, n);
    EntropySize(|phrase|);
    EntropyBytes(bits, n);
    assert bits == bits[..32 * n] + bits[32 * n..];
    assert AllBits(z, entropy) == bits;
    IndicesFit(z, entropy);
    ElevenBits();
    assert Fit(indices, 11);
    StreamInjective(IndicesOf(z, entropy), indices, 11);
  }

  lemma EntropySize(count: nat)
    requires LegalCount(count)
    ensures LegalEntropy(4 * (count / 3)) && 4 * (count / 3) / 4 * 3 == count
  {
  }

  // ---------------------------------------------------------------------------
  // The phrase as a number
  // ---------------------------------------------------------------------------

  lemma {:induction false} NumberJoin(a: seq<bool>, b: seq<bool>)
    ensures NumberOf(a + b) == Product(NumberOf(a), Pow2(|b|)) + NumberOf(b)
    decreases |b|
  {
    if b == [] {
      assert a + b == a;
    } else {
      var front, last := b[..|b| - 1], b[|b| - 1];
      NumberJoin(a, front);
      assert (a + b)[..|a + b| - 1] == a + front && (a + b)[|a + b| - 1] == last;
      assert NumberOf(a) * (2 * Pow2(|front|)) == 2 * (NumberOf(a) * Pow2(|front|));
    }
  }

  lemma NumberOfGroup(x: nat, w: nat)
    requires x < Pow2(w)
    ensures NumberOf(Bits(x, w)) == x
  {
    NumberBits(Bits(x, w));
    BitsInjective(NumberOf(Bits(x, w)), x, w);
  }

  lemma {:induction false} StreamNumber(groups: seq<nat>, w: nat)
    requires Fit(groups, w)
    ensures NumberOf(Stream(groups, w)) == Value(Pow2(w), groups)
    decreases |groups|
  {
    hide Bits, NumberOf, Pow2;
    if groups == [] {
      NothingIsZero(w);
    } else {
      var front, last := groups[..|groups| - 1], groups[|groups| - 1];
      StreamNumber(front, w);
      StreamSnoc(front, last, w);
      assert groups == front + [last];
      NumberJoin(Stream(front, w), Bits(last, w));
      NumberOfGroup(last, w);
    }
  }

  lemma NothingIsZero(w: nat)
    ensures NumberOf(Stream([], w)) == 0
  {
  }

  lemma {:induction false} FirstGroup(groups: seq<nat>, n: nat)
    requires groups != [] && n <= 8
    ensures Stream(groups, 8)[..n] == Bits(groups[0], 8)[..n]
    decreases |groups|
  {
    hide Bits;
    var front, last := groups[..|groups| - 1], groups[|groups| - 1];
    StreamSnoc(front, last, 8);
    assert groups == front + [last];
    if front == [] {
      StreamNothing(8);
      assert [] + Bits(last, 8) == Bits(last, 8);
    } else {
      FirstGroup(front, n);
    }
  }

  /** Main result: read in base 2048, the indices of the phrase's words are the entropy read in base 256, followed by the
      checksum: the leading bits of the first hash byte, one for every four bytes of entropy. */
  lemma PhraseIsNumber(z: Scheme, entropy: seq<Byte>)
    requires z.Good() && LegalEntropy(|entropy|)
    ensures var n := |entropy| / 4;
            4 <= n <= 8 && Value(2048, IndicesOf(z, entropy)) == Product(Value(256, entropy), Pow2(n)) + z.hash(entropy)[0] / Pow2(8 - n)
    ensures var phrase, indices := Split(ToMnemonic(z, entropy).value), IndicesOf(z, entropy);
            |phrase| == |indices| && forall i :: 0 <= i < |phrase| ==> indices[i] < 2048 && phrase[i] == z.words[indices[i]]
  {
    hide Stream, Bits, NumberOf, Pow2, Value, IndicesOf, IsWord, Product, Split, Join;
    ToWordsAreWords(z, entropy);
    SplitJoin(ToWords(z, entropy));
    var n, check := |entropy| / 4, z.hash(entropy);
    IndicesFit(z, entropy);
    ElevenBits();
    BytesFit(entropy);
    StreamNumber(IndicesOf(z, entropy), 11);
    StreamNumber(entropy, 8);
    FirstGroup(check, n);
    NumberJoin(Stream(entropy, 8), Stream(check, 8)[..n]);
    LeadingBits(check[0], n);
  }

  lemma LeadingBits(b: Byte, n: nat)
    requires n <= 8
    ensures NumberOf(Bits(b, 8)[..n]) == b / Pow2(8 - n)
  {
    hide Bits, NumberOf, Pow2;
    BitsFrom(b, 8, 8 - n);
    ElevenBits();
    Pow2Split(n);
    QuotientSmall(b, Pow2(n), Pow2(8 - n));
    NumberOfGroup(b / Pow2(8 - n), n);
  }

  lemma Pow2Split(n: nat)
    requires n <= 8
    ensures Product(Pow2(n), Pow2(8 - n)) == 256
  {
    assert Pow2(0) == 1 && Pow2(1) == 2 && Pow2(2) == 4 && Pow2(3) == 8 && Pow2(4) == 16;
    assert Pow2(5) == 32 && Pow2(6) == 64 && Pow2(7) == 128 && Pow2(8) == 256;
  }

  lemma QuotientSmall(b: nat, p: nat, q: nat)
    requires 0 < q && b < Product(p, q)
    ensures b / q < p
  {
    assert b == b / q * q + b % q;
    MulLess(b / q, p, q);
  }

  // ---------------------------------------------------------------------------
  // Bit by bit
  // ---------------------------------------------------------------------------

  lemma {:induction false} BitsFrom(v: nat, w: nat, k: nat)
    requires k <= w
    ensures Bits(v, w)[..w - k] == Bits(v / Pow2(k), w - k)
    decreases k
  {
    if k == 0 {
      assert v / 1 == v && Bits(v, w)[..w] == Bits(v, w);
    } else {
      BitsFrom(v / 2, w - 1, k - 1);
      HalveMod(v, Pow2(k - 1), Pow2(k));
      assert Bits(v, w)[..w - k] == Bits(v / 2, w - 1)[..w - k];
    }
  }

  /** Pushes the bits of a number, highest first. */
  method PushBits(bits: seq<bool>, v: nat, w: nat) returns (more: seq<bool>)
    ensures more == bits + Bits(v, w)
  {
    hide Bits, Pow2;
    more := bits;
    var bit: nat := w;
    assert bits + Bits(v, w)[..0] == bits;
    while 0 < bit
      invariant bit <= w && more == bits + Bits(v, w)[..w - bit]
    {
      bit := bit - 1;
      NextBit(v, w, bit);
      more := more + [v / Pow2(bit) % 2 == 1];
    }
    assert Bits(v, w)[..w] == Bits(v, w);
  }

  lemma NextBit(v: nat, w: nat, bit: nat)
    requires bit < w
    ensures Bits(v, w)[..w - bit] == Bits(v, w)[..w - (bit + 1)] + [v / Pow2(bit) % 2 == 1]
  {
    hide Pow2, Bits;
    BitsFrom(v, w, bit);
    var s, n := Bits(v, w), w - bit;
    LastBit(v / Pow2(bit), n);
    assert s[..n] == s[..n - 1] + [s[..n][n - 1]];
  }

  lemma LastBit(x: nat, n: nat)
    requires 0 < n
    ensures Bits(x, n)[n - 1] == (x % 2 == 1)
  {
  }

  /** Reads a group of bits as a number. */
  method ReadNumber(bits: seq<bool>, at: nat, w: nat) returns (n: nat)
    requires at + w <= |bits|
    ensures n == NumberOf(bits[at..at + w])
  {
    n := 0;
    for j := 0 to w
      invariant n == NumberOf(bits[at..at + j])
    {
      assert bits[at..at + j + 1][..j] == bits[at..at + j];
      n := 2 * n + if bits[at + j] then 1 else 0;
    }
  }

  lemma CutNext(s: seq<bool>, w: nat, i: nat)
    requires w * (i + 1) <= |s|
    ensures w * i + w == w * (i + 1)
    ensures Cut(s[..w * (i + 1)], w, i + 1) == Cut(s[..w * i], w, i) + [NumberOf(s[w * i..w * i + w])]
  {
    hide NumberOf;
    LengthStep(w, i + 1);
    var t := s[..w * (i + 1)];
    assert t[..w * i] == s[..w * i];
    assert t[w * i..] == s[w * i..w * i + w];
  }

  method ReadNumbers(bits: seq<bool>, w: nat, count: nat) returns (groups: seq<nat>)
    requires |bits| == w * count
    ensures groups == Cut(bits, w, count)
  {
    hide NumberOf, Cut;
    groups := [];
    assert bits[..w * 0] == [];
    CutNothing(w);
    for i := 0 to count
      invariant w * i <= |bits| && groups == Cut(bits[..w * i], w, i)
    {
      GroupInside(w, i, count);
      CutNext(bits, w, i);
      var n := ReadNumber(bits, w * i, w);
      groups := groups + [n];
    }
    assert bits[..w * count] == bits;
  }

  lemma CutNothing(w: nat)
    ensures Cut([], w, 0) == []
  {
  }

  lemma GroupInside(w: nat, i: nat, count: nat)
    requires i < count
    ensures w * (i + 1) <= w * count && w * i + w == w * (i + 1)
  {
    MulMono(i + 1, count, w);
    assert w * (i + 1) == (i + 1) * w && w * count == count * w;
    assert w * (i + 1) == w * i + w;
  }

  method PushAll(groups: seq<nat>, w: nat) returns (bits: seq<bool>)
    ensures bits == Stream(groups, w)
  {
    hide Bits, Stream;
    bits := [];
    assert groups[..0] == [];
    StreamNothing(w);
    for i := 0 to |groups|
      invariant bits == Stream(groups[..i], w)
    {
      StreamSnoc(groups[..i], groups[i], w);
      assert groups[..i + 1] == groups[..i] + [groups[i]];
      bits := PushBits(bits, groups[i], w);
    }
    assert groups[..|groups|] == groups;
  }

  lemma StreamNothing(w: nat)
    ensures Stream([], w) == []
  {
  }

  /** Collects entropy and checksum bits and reads them as word indices. */
  method EntropyToMnemonic(z: Scheme, entropy: seq<Byte>) returns (mnemonic: Option<string>)
    requires z.Good()
    ensures mnemonic == ToMnemonic(z, entropy)
  {
    hide Stream, Cut, Join, Phrase, Pow2;
    var entBits := 8 * |entropy|;
    if entBits < 128 || entBits > 256 || entBits % 32 != 0 {
      return None;
    }
    var checksumBits := entBits / 32;
    var checksum := z.hash(entropy);
    var bits := PushAll(entropy, 8);
    var more := PushAll(checksum, 8);
    bits := bits + more[..checksumBits];
    CountsMatch(|entropy|);
    assert checksumBits == |entropy| / 4;
    var indices := ReadNumbers(bits, 11, |bits| / 11);
    IndicesFit(z, entropy);
    mnemonic := Some(Join(Phrase(z.words, indices)));
  }

  lemma ShiftIn(n: nat, b: nat, p: nat)
    ensures (2 * n + b) * p == n * (2 * p) + b * p
  {
  }

  /** Sets the bits of a byte one by one, highest first. */
  method PackByte(bits: seq<bool>, at: nat) returns (b: Byte)
    requires at + 8 <= |bits|
    ensures b == NumberOf(bits[at..at + 8])
  {
    hide Pow2, NumberOf;
    var acc: nat := 0;
    NumberNothing();
    assert bits[at..at + 0] == [];
    for j := 0 to 8
      invariant acc == NumberOf(bits[at..at + j]) * Pow2(8 - j)
    {
      NumberNext(bits[at..at + j], bits[at + j]);
      assert bits[at..at + j + 1] == bits[at..at + j] + [bits[at + j]];
      Pow2Step(7 - j);
      ShiftIn(NumberOf(bits[at..at + j]), if bits[at + j] then 1 else 0, Pow2(7 - j));
      if bits[at + j] {
        acc := acc + Pow2(7 - j);
      }
    }
    Pow2Step(0);
    NumberBits(bits[at..at + 8]);
    ElevenBits();
    b := acc;
  }

  lemma NumberNothing()
    ensures NumberOf([]) == 0
  {
  }

  lemma NumberNext(s: seq<bool>, bit: bool)
    ensures NumberOf(s + [bit]) == 2 * NumberOf(s) + if bit then 1 else 0
  {
    assert (s + [bit])[..|s|] == s;
  }

  /** Packs the bits into bytes. */
  method PackBytes(bits: seq<bool>, n: nat) returns (entropy: seq<Byte>)
    requires |bits| == 8 * n
    ensures entropy == Cut(bits, 8, n)
  {
    hide NumberOf, Cut;
    var buffer := new Byte[n](_ => 0);
    assert bits[..8 * 0] == [];
    CutNothing(8);
    assert buffer[..0] == [];
    for i := 0 to n
      invariant buffer[..i] == Cut(bits[..8 * i], 8, i)
    {
      CutNext(bits, 8, i);
      var b := PackByte(bits, 8 * i);
      ghost var done := buffer[..i];
      buffer[i] := b;
      assert buffer[..i + 1] == done + [b];
    }
    assert bits[..8 * n] == bits;
    entropy := buffer[..];
  }

  method MnemonicToEntropy(z: Scheme, mnemonic: string) returns (entropy: Option<seq<Byte>>)
    requires z.Good()
    ensures entropy == ToEntropy(z, mnemonic)
  {
    hide Stream, Cut, Pow2, Split, IndexOf;
    var phrase := Split(mnemonic);
    if !LegalCount(|phrase|) {
      return None;
    }
    var indices: seq<nat> := [];
    for i := 0 to |phrase|
      invariant |indices| == i
      invariant forall k :: 0 <= k < i ==> IndexOf(z.words, phrase[k], 0) == Some(indices[k])
    {
      var index := IndexOf(z.words, phrase[i], 0);
      if index.None? {
        return None;
      }
      indices := indices + [index.value];
    }
    assert indices == Indices(z.words, phrase);
    var bits := PushAll(indices, 11);
    var entBits := |bits| * 32 / 33;
    BitCounts(|phrase|);
    var bytes := PackBytes(bits[..entBits], entBits / 8);
    assert bytes == EntropyOf(bits, |phrase| / 3);
    var checksum := PushAll(z.hash(bytes), 8);
    var matches := ChecksumMatches(bits, entBits, checksum);
    return if matches then Some(bytes) else None;
  }

  method ChecksumMatches(bits: seq<bool>, from: nat, checksum: seq<bool>) returns (ok: bool)
    requires from <= |bits| && |bits| - from <= |checksum|
    ensures ok == (bits[from..] == checksum[..|bits| - from])
  {
    for i := 0 to |bits| - from
      invariant forall k :: 0 <= k < i ==> bits[from + k] == checksum[k]
    {
      if bits[from + i] != checksum[i] {
        assert bits[from..][i] != checksum[..|bits| - from][i];
        return false;
      }
    }
    assert bits[from..] == checksum[..|bits| - from];
    return true;
  }

  lemma BitCounts(count: nat)
    requires LegalCount(count)
    ensures 11 * count * 32 / 33 == 32 * (count / 3) && 32 * (count / 3) / 8 == 4 * (count / 3)
    ensures 11 * count - 32 * (count / 3) == count / 3
  {
  }
}
