/** Base 64 and hexadecimal text. */
module Base64 {
  import Arith
  import opened Primitives

  // ---------------------------------------------------------------------------
  // The alphabet A-Z a-z 0-9 + /
  // ---------------------------------------------------------------------------

  function CharFrom(first: char, k: nat): char
    requires first as nat + k < 0xD800
  {
    (first as nat + k) as char
  }

  function Letter(d: nat): (c: char)
    requires d < 64
    ensures DigitOf(c) == Some(d) && c != '='
  {
    if d < 26 then CharFrom('A', d)
    else if d < 52 then CharFrom('a', d - 26)
    else if d < 62 then CharFrom('0', d - 52)
    else if d == 62 then '+' else '/'
  }

  function DigitOf(c: char): (d: Option<nat>)
    ensures d.Some? ==> d.value < 64
  {
    if 'A' <= c <= 'Z' then Some(c as nat - 'A' as nat)
    else if 'a' <= c <= 'z' then Some(c as nat - 'a' as nat + 26)
    else if '0' <= c <= '9' then Some(c as nat - '0' as nat + 52)
    else if c == '+' then Some(62)
    else if c == '/' then Some(63)
    else None
  }

  /** Upper case before lower case before digits before the two signs. */
  function Class(c: char): nat {
    if 'A' <= c <= 'Z' then 0 else if 'a' <= c <= 'z' then 1 else if '0' <= c <= '9' then 2 else if c == '+' then 3 else 4
  }

  /** The alphabet is that of section 4 of RFC 4648: these characters, class by class in ASCII order. */
  lemma Alphabet(c: char, d: char)
    ensures DigitOf(c).Some? <==> Class(c) < 4 || c == '/'
    ensures DigitOf(c).Some? && DigitOf(d).Some? && (Class(c) < Class(d) || (Class(c) == Class(d) && c < d)) ==>
              DigitOf(c).value < DigitOf(d).value
  {
  }

  /** Digit k of a 24-bit group, highest first. */
  function Sextet(triple: nat, k: nat): (d: nat)
    requires k < 4
    ensures d < 64
  {
    if k == 0 then triple / 0x40000 % 64 else if k == 1 then triple / 0x1000 % 64 else if k == 2 then triple / 64 % 64 else triple % 64
  }

  function Triple(a: Byte, b: Byte, c: Byte): (t: nat)
    ensures t < 0x100_0000
  {
    a * 0x10000 + b * 0x100 + c
  }

  // ---------------------------------------------------------------------------
  // Specification
  // ---------------------------------------------------------------------------

  function Group3(a: Byte, b: Byte, c: Byte): (t: string)
    ensures |t| == 4
  {
    var t := Triple(a, b, c);
    [Letter(Sextet(t, 0)), Letter(Sextet(t, 1)), Letter(Sextet(t, 2)), Letter(Sextet(t, 3))]
  }

  function Group2(a: Byte, b: Byte): (t: string)
    ensures |t| == 4
  {
    var t := Triple(a, b, 0);
    [Letter(Sextet(t, 0)), Letter(Sextet(t, 1)), Letter(Sextet(t, 2)), '=']
  }

  function Group1(a: Byte): (t: string)
    ensures |t| == 4
  {
    var t := Triple(a, 0, 0);
    [Letter(Sextet(t, 0)), Letter(Sextet(t, 1)), '=', '=']
  }

  /** Four letters per started group of three bytes. */
  function Encode(data: seq<Byte>): string {
    if |data| == 0 then ""
    else if |data| == 1 then Group1(data[0])
    else if |data| == 2 then Group2(data[0], data[1])
    else Group3(data[0], data[1], data[2]) + Encode(data[3..])
  }

  /** Full groups of letters; padding only in the last two places, and the last place is padded if the one
      before it is. */
  predicate IsValid(text: string) {
    && |text| % 4 == 0
    && forall i :: 0 <= i < |text| ==>
         if text[i] == '=' then |text| - 2 <= i && (i == |text| - 2 ==> text[|text| - 1] == '=')
         else DigitOf(text[i]).Some?
  }

  /** The value of a letter; padding counts as zero. */
  function Value(c: char): (v: nat)
    ensures v < 64
  {
    if DigitOf(c).Some? then DigitOf(c).value else 0
  }

  function Joined(text: string): (t: nat)
    requires 4 <= |text|
    ensures t < 0x100_0000
  {
    Value(text[0]) * 0x40000 + Value(text[1]) * 0x1000 + Value(text[2]) * 64 + Value(text[3])
  }

  /** The bytes of one group; a padded place gives none. */
  function GroupBytes(text: string): (b: seq<Byte>)
    requires 4 <= |text|
  {
    var t := Joined(text);
    [t / 0x10000] + (if text[2] != '=' then [t / 0x100 % 0x100] else []) + if text[3] != '=' then [t % 0x100] else []
  }

  function GroupsBytes(text: string): seq<Byte> {
    if |text| < 4 then [] else GroupBytes(text) + GroupsBytes(text[4..])
  }

  function Decode(text: string): Option<seq<Byte>> {
    if IsValid(text) then Some(GroupsBytes(text)) else None
  }

  // ---------------------------------------------------------------------------
  // Round trip
  // ---------------------------------------------------------------------------

  lemma SextetsJoin(t: nat)
    requires t < 0x100_0000
    ensures Sextet(t, 0) * 0x40000 + Sextet(t, 1) * 0x1000 + Sextet(t, 2) * 64 + Sextet(t, 3) == t
    ensures t % 0x100 == 0 ==> Sextet(t, 3) == 0
    ensures t % 0x10000 == 0 ==> Sextet(t, 2) == 0
  {
    var d0, d1, d2, d3 := t / 0x40000, t / 0x1000 % 64, t / 64 % 64, t % 64;
    LastDigit(t);
    LastDigit(t / 64);
    LastDigit(t / 0x1000);
    NestedDivision(t);
    assert t == d0 * 0x40000 + d1 * 0x1000 + d2 * 64 + d3;
    assert d0 % 64 == d0;
    LowZeros(t);
  }

  lemma LastDigit(t: nat)
    ensures t == t / 64 * 64 + t % 64
  {
  }

  lemma NestedDivision(t: nat)
    ensures t / 64 / 64 == t / 0x1000 && t / 0x1000 / 64 == t / 0x40000
  {
  }

  lemma LowZeros(t: nat)
    ensures t % 0x100 == 0 ==> t % 64 == 0
    ensures t % 0x10000 == 0 ==> t / 64 % 64 == 0
  {
    var k, m := t / 0x100, t / 0x10000;
    assert t == k * 0x100 + t % 0x100;
    assert t == m * 0x10000 + t % 0x10000;
    if t % 0x100 == 0 {
      Arith.DivUnique(t, 64, 4 * k, 0);
    }
    if t % 0x10000 == 0 {
      Arith.DivUnique(t, 64, 1024 * m, 0);
      Arith.DivUnique(1024 * m, 64, 16 * m, 0);
    }
  }

  lemma TripleBytes(a: Byte, b: Byte, c: Byte)
    ensures var t := Triple(a, b, c); t / 0x10000 == a && t / 0x100 % 0x100 == b && t % 0x100 == c
  {
    var t := Triple(a, b, c);
    Arith.DivUnique(t, 0x10000, a, b * 0x100 + c);
    Arith.DivUnique(t, 0x100, a * 0x100 + b, c);
    Arith.DivUnique(a * 0x100 + b, 0x100, a, b);
  }

  lemma Group3Back(a: Byte, b: Byte, c: Byte, rest: string)
    ensures GroupBytes(Group3(a, b, c) + rest) == [a, b, c]
  {
    hide Sextet, Triple, Letter, DigitOf;
    SextetsJoin(Triple(a, b, c));
    TripleBytes(a, b, c);
  }

  lemma Group2Back(a: Byte, b: Byte)
    ensures GroupBytes(Group2(a, b)) == [a, b]
  {
    hide Sextet, Triple, Letter;
    SextetsJoin(Triple(a, b, 0));
    TripleBytes(a, b, 0);
  }

  lemma Group1Back(a: Byte)
    ensures GroupBytes(Group1(a)) == [a]
  {
    hide Sextet, Letter;
    SextetsJoin(Triple(a, 0, 0));
    TripleBytes(a, 0, 0);
  }

  lemma {:induction false} EncodeValid(data: seq<Byte>)
    ensures IsValid(Encode(data))
    decreases |data|
  {
    hide Sextet, Triple, Letter, DigitOf;
    if 3 <= |data| {
      EncodeValid(data[3..]);
      FullGroupFirst(Group3(data[0], data[1], data[2]), Encode(data[3..]));
    }
  }

  lemma FullGroupFirst(head: string, rest: string)
    requires |head| == 4 && (forall i :: 0 <= i < 4 ==> DigitOf(head[i]).Some? && head[i] != '=') && IsValid(rest)
    ensures IsValid(head + rest)
  {
    hide DigitOf;
    var t := head + rest;
    forall i | 0 <= i < |t|
      ensures if t[i] == '=' then |t| - 2 <= i && (i == |t| - 2 ==> t[|t| - 1] == '=') else DigitOf(t[i]).Some?
    {
      if 4 <= i { assert t[i] == rest[i - 4]; }
    }
  }

  lemma {:induction false} GroupsBack(data: seq<Byte>)
    ensures GroupsBytes(Encode(data)) == data
    decreases |data|
  {
    hide Group1, Group2, Group3, GroupBytes;
    if |data| == 1 {
      Group1Back(data[0]);
      LastGroup(Group1(data[0]));
    } else if |data| == 2 {
      Group2Back(data[0], data[1]);
      LastGroup(Group2(data[0], data[1]));
    } else if 3 <= |data| {
      var head, rest := Group3(data[0], data[1], data[2]), Encode(data[3..]);
      Group3Back(data[0], data[1], data[2], rest);
      GroupsBack(data[3..]);
      assert (head + rest)[4..] == rest;
      assert data == [data[0], data[1], data[2]] + data[3..];
    }
  }

  lemma LastGroup(text: string)
    requires |text| == 4
    ensures GroupsBytes(text) == GroupBytes(text)
  {
    hide GroupBytes;
    assert text[4..] == "";
    assert GroupBytes(text) + [] == GroupBytes(text);
  }

  /** Main result: every byte string comes back. */
  lemma DecodeEncode(data: seq<Byte>)
    ensures Decode(Encode(data)) == Some(data)
  {
    hide IsValid, GroupsBytes, Encode;
    EncodeValid(data);
    GroupsBack(data);
  }

  // ---------------------------------------------------------------------------
  // Filling the output buffer
  // ---------------------------------------------------------------------------

  lemma {:induction false} EncodeSplit(data: seq<Byte>, i: nat)
    requires i % 3 == 0 && i <= |data|
    ensures Encode(data) == Encode(data[..i]) + Encode(data[i..])
    decreases |data|
  {
    hide Group1, Group2, Group3;
    if i == 0 {
      assert data[..0] == [] && data[0..] == data;
      assert Encode([]) + Encode(data) == Encode(data);
    } else {
      EncodeSplit(data[3..], i - 3);
      assert data[..i][3..] == data[3..][..i - 3];
      assert data[3..][i - 3..] == data[i..];
      var head := Group3(data[0], data[1], data[2]);
      assert head + (Encode(data[3..][..i - 3]) + Encode(data[i..])) == head + Encode(data[3..][..i - 3]) + Encode(data[i..]);
    }
  }

  lemma EncodeNext(data: seq<Byte>, i: nat)
    requires i % 3 == 0 && i + 3 <= |data|
    ensures Encode(data[..i + 3]) == Encode(data[..i]) + Group3(data[i], data[i + 1], data[i + 2])
  {
    hide Group3;
    EncodeSplit(data[..i + 3], i);
    assert data[..i + 3][..i] == data[..i];
    var last := data[..i + 3][i..];
    assert last == [data[i], data[i + 1], data[i + 2]];
    assert last[3..] == [];
    assert Group3(data[i], data[i + 1], data[i + 2]) + Encode([]) == Group3(data[i], data[i + 1], data[i + 2]);
  }

  method Put(res: array<char>, j: nat, group: string)
    requires j + 4 <= res.Length && |group| == 4
    modifies res
    ensures res[j..j + 4] == group
    ensures forall k :: 0 <= k < res.Length && (k < j || j + 4 <= k) ==> res[k] == old(res[k])
  {
    res[j], res[j + 1], res[j + 2], res[j + 3] := group[0], group[1], group[2], group[3];
  }

  lemma RoomForGroup(n: nat, groups: nat)
    requires 3 * groups <= n
    ensures 3 * groups % 3 == 0 && 4 * groups <= (n + 2) / 3 * 4
    ensures 3 * groups < n ==> 4 * groups + 4 <= (n + 2) / 3 * 4
    ensures n < 3 * groups + 3 ==> (n + 2) / 3 * 4 == 4 * groups + if n == 3 * groups then 0 else 4
  {
    var up := (n + 2) / 3;
    assert n <= 3 * up <= n + 2;
  }

  /** Fills a buffer of padding signs group by group. */
  method EncodeBytes(data: seq<Byte>) returns (text: string)
    ensures text == Encode(data)
  {
    hide Encode, Group1, Group2, Group3;
    var res := new char[(|data| + 2) / 3 * 4](_ => '=');
    var i, j := 0, 0;
    EncodeNothing();
    assert data[..0] == [];
    ghost var groups: nat := 0;
    while i + 3 <= |data|
      invariant i <= |data| && i == 3 * groups && j == 4 * groups
      invariant j <= res.Length && res[..j] == Encode(data[..i])
      decreases |data| - i
    {
      RoomForGroup(|data|, groups);
      groups := groups + 1;
      EncodeNext(data, i);
      ghost var before := res[..j];
      Put(res, j, Group3(data[i], data[i + 1], data[i + 2]));
      assert res[..j] == before;
      assert res[..j + 4] == res[..j] + res[j..j + 4];
      i, j := i + 3, j + 4;
    }
    RoomForGroup(|data|, groups);
    EncodeSplit(data, i);
    EncodeEnd(data[i..]);
    ghost var before := res[..j];
    if |data| - i == 1 {
      Put(res, j, Group1(data[i]));
      assert res[..j + 4] == res[..j] + res[j..j + 4];
    } else if |data| - i == 2 {
      Put(res, j, Group2(data[i], data[i + 1]));
      assert res[..j + 4] == res[..j] + res[j..j + 4];
    }
    assert res[..j] == before;
    text := res[..];
  }

  lemma {:induction false} EncodeLength(data: seq<Byte>)
    ensures |Encode(data)| == (|data| + 2) / 3 * 4
    decreases |data|
  {
    hide Group1, Group2, Group3;
    if 3 <= |data| {
      EncodeLength(data[3..]);
    }
  }

  lemma EncodeNothing()
    ensures Encode([]) == ""
  {
  }

  lemma EncodeEnd(rest: seq<Byte>)
    requires |rest| < 3
    ensures Encode(rest) == if |rest| == 0 then "" else if |rest| == 1 then Group1(rest[0]) else Group2(rest[0], rest[1])
  {
  }

  // ---------------------------------------------------------------------------
  // Hexadecimal
  // ---------------------------------------------------------------------------

  function HexLetter(d: nat): (c: char)
    requires d < 16
    ensures HexDigit(c) == Some(d)
  {
    if d < 10 then CharFrom('0', d) else CharFrom('a', d - 10)
  }

  function HexDigit(c: char): (d: Option<nat>)
    ensures d.Some? ==> d.value < 16
  {
    if '0' <= c <= '9' then Some(c as nat - '0' as nat)
    else if 'a' <= c <= 'f' then Some(c as nat - 'a' as nat + 10)
    else if 'A' <= c <= 'F' then Some(c as nat - 'A' as nat + 10)
    else None
  }

  function HexEncode(data: seq<Byte>): (t: string)
    ensures |t| == 2 * |data|
  {
    seq(2 * |data|, i requires 0 <= i < 2 * |data| =>
      if i % 2 == 0 then HexLetter(data[i / 2] / 16) else HexLetter(data[i / 2] % 16))
  }

  predicate HexIsValid(text: string) {
    text != "" && |text| % 2 == 0 && forall i :: 0 <= i < |text| ==> HexDigit(text[i]).Some?
  }

  function HexBytes(text: string): (b: seq<Byte>)
    requires HexIsValid(text)
    ensures |b| == |text| / 2
  {
    seq(|text| / 2, i requires 0 <= i < |text| / 2 => HexDigit(text[2 * i]).value * 16 + HexDigit(text[2 * i + 1]).value)
  }

  lemma HexBack(data: seq<Byte>)
    requires data != []
    ensures HexIsValid(HexEncode(data)) && HexBytes(HexEncode(data)) == data
  {
    hide HexLetter, HexDigit;
    var t := HexEncode(data);
    forall i | 0 <= i < |data|
      ensures HexBytes(t)[i] == data[i]
    {
      assert t[2 * i] == HexLetter(data[i] / 16);
      assert t[2 * i + 1] == HexLetter(data[i] % 16);
    }
  }

  /** Hexadecimal digits stand with the higher one first. */
  lemma HexPlaces(data: seq<Byte>, i: nat)
    requires i < |data|
    ensures var t := HexEncode(data);
            && HexDigit(t[2 * i]).Some? && HexDigit(t[2 * i + 1]).Some?
            && 16 * HexDigit(t[2 * i]).value + HexDigit(t[2 * i + 1]).value == data[i]
  {
    hide HexLetter, HexDigit;
    var t := HexEncode(data);
    assert t[2 * i] == HexLetter(data[i] / 16);
    assert t[2 * i + 1] == HexLetter(data[i] % 16);
  }

  /** Three bytes and their four letters are the same number, read from the front; short groups are filled up with zeros. */
  lemma GroupIsNumber(a: Byte, b: Byte, c: Byte)
    ensures Number(Group3(a, b, c)) == 0x1_0000 * a + 0x100 * b + c
    ensures Number(Group2(a, b)) == 0x1_0000 * a + 0x100 * b && Group2(a, b)[3] == '='
    ensures Number(Group1(a)) == 0x1_0000 * a && Group1(a)[2..] == "=="
  {
    hide Letter, DigitOf, Sextet;
    SextetsJoin(Triple(a, b, c));
    SextetsJoin(Triple(a, b, 0));
    SextetsJoin(Triple(a, 0, 0));
    DivMod256(a, b);
  }

  /** The number of four letters in base 64; padding counts as zero. */
  function Number(text: string): nat
    requires |text| == 4
  {
    0x40000 * Value(text[0]) + 0x1000 * Value(text[1]) + 64 * Value(text[2]) + Value(text[3])
  }

  lemma DivMod256(a: Byte, b: Byte)
    ensures Triple(a, b, 0) % 0x100 == 0 && Triple(a, 0, 0) % 0x10000 == 0 && Triple(a, 0, 0) % 0x100 == 0
    ensures Value('=') == 0
  {
    TripleBytes(a, b, 0);
    TripleBytes(a, 0, 0);
    Arith.DivUnique(Triple(a, 0, 0), 0x10000, a, 0);
  }
}
