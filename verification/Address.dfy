/** Addresses: four text formats of one 20-byte payload, and the canonical text they all lead to. */
module Address {
  import opened Primitives
  import opened BitStrings
  import Radix
  import Base58
  import Base64
  import Bech32

  const ADDRESS_HASH_LENGTH: nat := 20
  const ADDRESS_HEX_LENGTH: nat := 40
  const BASE58_VERSION: Byte := 0x1C
  const BECH32_PREFIX: string := "crx"

  /** The first four bytes of the double hash that guards base 58 text. */
  type Checksum = seq<Byte> -> (Byte, Byte, Byte, Byte)

  // ---------------------------------------------------------------------------
  // Reading
  // ---------------------------------------------------------------------------

  function TrimStart(s: string): string {
    if s != "" && IsSpace(s[0]) then TrimStart(s[1..]) else s
  }

  function TrimEnd(s: string): string {
    if s != "" && IsSpace(s[|s| - 1]) then TrimEnd(s[..|s| - 1]) else s
  }

  function Trim(s: string): string {
    TrimEnd(TrimStart(s))
  }

  function Bytes(groups: seq<nat>): (b: seq<Byte>)
    requires Fit(groups, 8)
    ensures b == groups
  {
    EightBits(groups);
    seq<Byte>(|groups|, i requires 0 <= i < |groups| => groups[i])
  }

  lemma EightBits(groups: seq<nat>)
    ensures Fit(groups, 8) <==> forall i :: 0 <= i < |groups| ==> groups[i] < 0x100
  {
    Bech32.FiveBits();
  }

  lemma RegroupFits(groups: seq<nat>, from: nat, to: nat, pad: bool)
    requires 0 < from && 0 < to && Regroup(groups, from, to, pad).Some?
    ensures Fit(Regroup(groups, from, to, pad).value, to)
  {
    hide Regroup, Stream;
    RegroupIs(groups, from, to, pad);
  }

  /** Prefix, version group zero, and twenty bytes in groups of five bits. */
  function FromBech32(text: string): Option<string> {
    var d := Bech32.Decode(text);
    if d.None? || d.value.hrp != BECH32_PREFIX || d.value.data == [] || d.value.data[0] != 0 then None
    else
      var program := Regroup(d.value.data[1..], 5, 8, false);
      if program.None? || |program.value| != ADDRESS_HASH_LENGTH then None
      else
        RegroupFits(d.value.data[1..], 5, 8, false);
        Some(Base64.Encode(Bytes(program.value)))
  }

  function WithoutHexPrefix(text: string): string {
    if "0x" <= text || "0X" <= text then text[2..] else text
  }

  function FromHex(text: string): Option<string> {
    var digits := WithoutHexPrefix(text);
    if |digits| == ADDRESS_HEX_LENGTH && Base64.HexIsValid(digits) then Some(Base64.Encode(Base64.HexBytes(digits))) else None
  }

  function Check(checksum: Checksum, data: seq<Byte>): (c: seq<Byte>)
    ensures |c| == 4
  {
    var t := checksum(data);
    [t.0, t.1, t.2, t.3]
  }

  function FromBase58(checksum: Checksum, text: string): Option<string> {
    var d := Base58.Decode(text);
    if d.Some? && |d.value| == ADDRESS_HASH_LENGTH + 1 + 4 && d.value[0] == BASE58_VERSION
       && Check(checksum, d.value[..21]) == d.value[21..]
    then Some(Base64.Encode(d.value[1..21])) else None
  }

  function Padded(text: string): (t: string)
    ensures |t| % 4 == 0
  {
    if |text| % 4 == 0 then text
    else if |text| % 4 == 1 then text + "==="
    else if |text| % 4 == 2 then text + "=="
    else text + "="
  }

  function FromBase64(text: string): Option<string> {
    var d := Base64.Decode(Padded(text));
    if d.None? then None
    else
      var bytes := if |d.value| == 21 && d.value[20] == 0 then d.value[..20] else d.value;
      if |bytes| == ADDRESS_HASH_LENGTH then Some(Base64.Encode(bytes)) else None
  }

  /** The formats are tried one after the other; text that is none of them is refused. */
  function Canonicalize(checksum: Checksum, address: string): Option<string> {
    var text := Trim(address);
    if text == "" then None
    else if FromBech32(text).Some? then FromBech32(text)
    else if FromHex(text).Some? then FromHex(text)
    else if FromBase58(checksum, text).Some? then FromBase58(checksum, text)
    else FromBase64(text)
  }

  // ---------------------------------------------------------------------------
  // Writing
  // ---------------------------------------------------------------------------

  function Base58Form(checksum: Checksum, payload: seq<Byte>): string {
    Base58.Encode([BASE58_VERSION] + payload + Check(checksum, [BASE58_VERSION] + payload))
  }

  function HexForm(payload: seq<Byte>): string {
    "0x" + Base64.HexEncode(payload)
  }

  lemma PayloadFits(payload: seq<Byte>)
    ensures Fit(payload, 8)
  {
    EightBits(payload);
  }

  function Bech32Groups(payload: seq<Byte>): (g: seq<nat>)
    ensures Fit(g, 5)
  {
    PayloadFits(payload);
    EightFiveEight(payload);
    Bech32.FiveBits();
    [0] + Regroup(payload, 8, 5, true).value
  }

  function Bech32Form(payload: seq<Byte>): string {
    Bech32.Encode(BECH32_PREFIX, Bech32Groups(payload))
  }

  // ---------------------------------------------------------------------------
  // No format captures another
  // ---------------------------------------------------------------------------

  lemma TrimNothing(t: string)
    requires t != "" && !IsSpace(t[0]) && !IsSpace(t[|t| - 1])
    ensures Trim(t) == t
  {
  }

  lemma Bech32Read(payload: seq<Byte>)
    requires |payload| == ADDRESS_HASH_LENGTH
    ensures FromBech32(Bech32Form(payload)) == Some(Base64.Encode(payload))
  {
    hide Bech32.Decode, Bech32.Encode, Regroup, Base64.Encode, Stream, Pow2;
    var groups := Bech32Groups(payload);
    assert Bech32.NoUpper(BECH32_PREFIX);
    Bech32.DecodeEncode(BECH32_PREFIX, groups);
    PayloadFits(payload);
    EightFiveEight(payload);
    assert groups[1..] == Regroup(payload, 8, 5, true).value;
  }

  lemma Bech32Shape(payload: seq<Byte>)
    ensures var t := Bech32Form(payload); t != "" && !IsSpace(t[0]) && !IsSpace(t[|t| - 1])
  {
    hide Bech32.Letter, Bech32.Checksum, Bech32.PrefixGroups, Regroup, Pow2;
    var g := Bech32Groups(payload);
    Bech32.FitJoin(Bech32.PrefixGroups(BECH32_PREFIX), g);
    var c := Bech32.Checksum(Bech32.PrefixGroups(BECH32_PREFIX) + g);
    Bech32.SmallGroups(c);
    LetterNotSpace(c[5]);
    var t := Bech32Form(payload);
    assert t[|t| - 1] == Bech32.Letters(c)[5];
    assert t[0] == 'c';
  }

  lemma LetterNotSpace(v: nat)
    requires v < 32
    ensures !IsSpace(Bech32.Letter(v))
  {
  }

  /** A decoded prefix starts with the first character of the text. */
  lemma PrefixStarts(text: string)
    requires Bech32.Decode(text).Some?
    ensures var d := Bech32.Decode(text).value;
            && d.hrp != "" && text != "" && d.hrp[0] == Bech32.ToLower(text[0])
            && |text| == |d.hrp| + 1 + |d.data| + 6
            && (forall i :: |text| - 6 <= i < |text| ==> Bech32.GroupOf(Bech32.ToLower(text[i])).Some?)
  {
    hide Bech32.GroupOf, Bech32.Verifies, Bech32.PrefixGroups, Bech32.ToLower, Bech32.NoUpper, Bech32.NoLower, Pow2;
    var lower := Bech32.Lowered(text);
    var pos := Bech32.LastOne(lower).value;
    var rest := lower[pos + 1..];
    assert Bech32.AllLetters(rest);
    forall i | |text| - 6 <= i < |text|
      ensures Bech32.GroupOf(Bech32.ToLower(text[i])).Some?
    {
      assert rest[i - (pos + 1)] == lower[i];
    }
  }

  lemma NotBech32ByStart(text: string)
    requires text != "" && Bech32.ToLower(text[0]) != 'c'
    ensures FromBech32(text).None?
  {
    hide Bech32.Decode, Regroup, Base64.Encode;
    assert BECH32_PREFIX[0] == 'c';
    if FromBech32(text).Some? {
      PrefixStarts(text);
    }
  }

  /** Only text of 43 characters is a Bech32 address. */
  lemma Bech32Length(text: string)
    requires FromBech32(text).Some?
    ensures |text| == 43
  {
    hide Bech32.Decode, Base64.Encode, Regroup, Stream, Pow2;
    PrefixStarts(text);
    var data := Bech32.Decode(text).value.data;
    RegroupIs(data[1..], 5, 8, false);
    GroupCount(|data| - 1);
  }

  lemma GroupCount(n: nat)
    requires 8 * 20 == 5 * n - Left(5 * n, 8) && Left(5 * n, 8) < 5
    ensures n == 32
  {
  }

  lemma HexRead(checksum: Checksum, payload: seq<Byte>)
    requires |payload| == ADDRESS_HASH_LENGTH
    ensures Canonicalize(checksum, HexForm(payload)) == Some(Base64.Encode(payload))
  {
    hide Base64.Encode, Base64.HexLetter, Base64.HexDigit, Base64.HexEncode, FromBech32, FromBase58, FromBase64, Trim, Base64.HexIsValid,
         Base64.HexBytes;
    var t := HexForm(payload);
    Base64.HexBack(payload);
    HexLast(payload);
    TrimNothing(t);
    NotBech32ByStart(t);
    assert t[2..] == Base64.HexEncode(payload);
    assert "0x" <= t;
  }

  lemma HexLast(payload: seq<Byte>)
    requires payload != []
    ensures var t := HexForm(payload); t[0] == '0' && t[1] == 'x' && !IsSpace(t[0]) && !IsSpace(t[|t| - 1])
  {
    hide Base64.HexLetter;
    var t, h := HexForm(payload), Base64.HexEncode(payload);
    assert t[|t| - 1] == h[|h| - 1] == Base64.HexLetter(payload[|payload| - 1] % 16);
    HexNotSpace(payload[|payload| - 1] % 16);
  }

  lemma HexNotSpace(d: nat)
    requires d < 16
    ensures !IsSpace(Base64.HexLetter(d))
  {
  }

  /** Five bytes never take more than seven letters. */
  lemma FiveBytes()
    ensures Radix.Power(0x100, 5) <= Radix.Power(58, 7)
  {
    assert Radix.Power(0x100, 1) == 0x100;
    assert Radix.Power(0x100, 2) == 0x1_0000;
    assert Radix.Power(0x100, 3) == 0x100_0000;
    assert Radix.Power(0x100, 4) == 0x1_0000_0000;
    assert Radix.Power(58, 1) == 58;
    assert Radix.Power(58, 2) == 3364;
    assert Radix.Power(58, 3) == 195_112;
    assert Radix.Power(58, 4) == 11_316_496;
    assert Radix.Power(58, 5) == 656_356_768;
    assert Radix.Power(58, 6) == 38_068_692_544;
  }

  lemma Base58Length(checksum: Checksum, payload: seq<Byte>)
    requires |payload| == ADDRESS_HASH_LENGTH
    ensures |Base58Form(checksum, payload)| <= 35
  {
    hide Radix.Power, Base58.Encode;
    FiveBytes();
    Radix.PowerBlocks(0x100, 5, 58, 7, 5);
    var data := [BASE58_VERSION] + payload + Check(checksum, [BASE58_VERSION] + payload);
    Base58.EncodedLength(data, 35);
  }

  lemma Base58NotSpace(c: char)
    requires Base58.DigitOf(c).Some?
    ensures !IsSpace(c) && c != '0' && c != '='
  {
  }

  lemma Base58Shape(data: seq<Byte>)
    requires data != []
    ensures var t := Base58.Encode(data); t != "" && Base58.IsBase58(t) && !IsSpace(t[0]) && !IsSpace(t[|t| - 1]) && t[0] != '0'
  {
    hide Base58.Encode, Base58.DigitOf, Base58.Decode;
    var t := Base58.Encode(data);
    Base58.DecodeEncode(data);
    EncodedIsBase58(data);
    Base58NotSpace(t[0]);
    Base58NotSpace(t[|t| - 1]);
  }

  lemma EncodedIsBase58(data: seq<Byte>)
    requires data != []
    ensures Base58.IsBase58(Base58.Encode(data)) && Base58.Encode(data) != ""
  {
    hide Base58.Encode, Base58.DigitOf;
    Base58.DecodeEncode(data);
    if Base58.Encode(data) == "" {
      Base58.DecodeEmpty();
    }
  }

  lemma Base58Read(checksum: Checksum, payload: seq<Byte>)
    requires |payload| == ADDRESS_HASH_LENGTH
    ensures FromBase58(checksum, Base58Form(checksum, payload)) == Some(Base64.Encode(payload))
  {
    hide Base64.Encode, Base58.Encode, Base58.Decode;
    var data := [BASE58_VERSION] + payload + Check(checksum, [BASE58_VERSION] + payload);
    Base58.DecodeEncode(data);
    assert data[..21] == [BASE58_VERSION] + payload;
    assert data[21..] == Check(checksum, [BASE58_VERSION] + payload);
    assert data[1..21] == payload;
  }

  lemma Base58Canonical(checksum: Checksum, payload: seq<Byte>)
    requires |payload| == ADDRESS_HASH_LENGTH
    ensures Canonicalize(checksum, Base58Form(checksum, payload)) == Some(Base64.Encode(payload))
  {
    hide Base64.Encode, Base58.Encode, FromBech32, FromBase58, FromBase64, Trim, Base64.HexIsValid, Base64.HexBytes;
    var t := Base58Form(checksum, payload);
    Base58Shape([BASE58_VERSION] + payload + Check(checksum, [BASE58_VERSION] + payload));
    TrimNothing(t);
    Base58Length(checksum, payload);
    Base58Read(checksum, payload);
    if FromBech32(t).Some? { Bech32Length(t); }
  }

  /** The canonical text of twenty bytes is 28 letters, the last one padding. */
  lemma Base64Shape(payload: seq<Byte>)
    requires |payload| == ADDRESS_HASH_LENGTH
    ensures var t := Base64.Encode(payload); |t| == 28 && t[27] == '=' && !IsSpace(t[0])
  {
    hide Base64.Encode, Base64.Group3, Base64.Letter, Base64.Sextet;
    Base64.EncodeLength(payload);
    Base64.EncodeSplit(payload, 18);
    Base64.EncodeEnd(payload[18..]);
    Base64.EncodeSplit(payload, 3);
    Base64.EncodeNext(payload, 0);
    assert payload[..0] == [];
    Base64.EncodeNothing();
    FirstSextet(payload[0], payload[1], payload[2]);
    var t := Base64.Encode(payload);
    assert t[27] == Base64.Group2(payload[18], payload[19])[3];
    assert t[0] == Base64.Group3(payload[0], payload[1], payload[2])[0];
  }

  lemma FirstSextet(a: Byte, b: Byte, c: Byte)
    ensures !IsSpace(Base64.Group3(a, b, c)[0])
  {
    hide Base64.Sextet;
    var d := Base64.Sextet(Base64.Triple(a, b, c), 0);
    assert !IsSpace(Base64.Letter(d));
  }

  lemma PaddingIsForeign()
    ensures Bech32.GroupOf(Bech32.ToLower('=')).None? && Base58.DigitOf('=').None? && !IsSpace('=')
  {
  }

  lemma Base64Canonical(checksum: Checksum, payload: seq<Byte>)
    requires |payload| == ADDRESS_HASH_LENGTH
    ensures Canonicalize(checksum, Base64.Encode(payload)) == Some(Base64.Encode(payload))
  {
    hide Base64.Encode, Base64.Decode, Bech32.Decode, Trim, Base64.HexIsValid, Base64.HexBytes, Regroup, Bech32.GroupOf, Bech32.ToLower,
         Base58.DigitOf;
    var t := Base64.Encode(payload);
    Base64Shape(payload);
    PaddingIsForeign();
    TrimNothing(t);
    if Bech32.Decode(t).Some? { PrefixStarts(t); }
    assert Base58.Decode(t).None? by { assert Base58.DigitOf(t[27]).None?; }
    Base64.DecodeEncode(payload);
  }

  /** Main result: all four formats of a payload have the same canonical text, which is the base 64 one; no
      format is mistaken for another. */
  lemma FormatsAgree(checksum: Checksum, payload: seq<Byte>)
    requires |payload| == ADDRESS_HASH_LENGTH
    ensures Canonicalize(checksum, Base64.Encode(payload)) == Some(Base64.Encode(payload))
    ensures Canonicalize(checksum, Base58Form(checksum, payload)) == Some(Base64.Encode(payload))
    ensures Canonicalize(checksum, HexForm(payload)) == Some(Base64.Encode(payload))
    ensures Canonicalize(checksum, Bech32Form(payload)) == Some(Base64.Encode(payload))
  {
    hide Canonicalize, Base58Form, HexForm, Base64.Encode, Bech32Form;
    Base64Canonical(checksum, payload);
    Base58Canonical(checksum, payload);
    HexRead(checksum, payload);
    Bech32Canonical(checksum, payload);
  }

  lemma Bech32Canonical(checksum: Checksum, payload: seq<Byte>)
    requires |payload| == ADDRESS_HASH_LENGTH
    ensures Canonicalize(checksum, Bech32Form(payload)) == Some(Base64.Encode(payload))
  {
    hide Base64.Encode, Bech32Form, FromBech32, FromHex, FromBase58, FromBase64, Trim;
    Bech32Shape(payload);
    TrimNothing(Bech32Form(payload));
    Bech32Read(payload);
  }

  // ---------------------------------------------------------------------------
  // Conversions between formats
  // ---------------------------------------------------------------------------

  /** A canonical text is the base 64 text of twenty bytes. */
  lemma CanonicalPayload(checksum: Checksum, address: string) returns (payload: seq<Byte>)
    requires Canonicalize(checksum, address).Some?
    ensures |payload| == ADDRESS_HASH_LENGTH && Canonicalize(checksum, address) == Some(Base64.Encode(payload))
  {
    hide Base64.Encode, Base64.Decode, Bech32.Decode, Base58.Decode, Trim, Base64.HexIsValid, Base64.HexBytes, Regroup, WithoutHexPrefix, Padded;
    var text := Trim(address);
    if FromBech32(text).Some? {
      RegroupFits(Bech32.Decode(text).value.data[1..], 5, 8, false);
      payload := Bytes(Regroup(Bech32.Decode(text).value.data[1..], 5, 8, false).value);
    } else if FromHex(text).Some? {
      payload := Base64.HexBytes(WithoutHexPrefix(text));
    } else if FromBase58(checksum, text).Some? {
      payload := Base58.Decode(text).value[1..21];
    } else {
      var bytes := Base64.Decode(Padded(text)).value;
      payload := if |bytes| == 21 && bytes[20] == 0 then bytes[..20] else bytes;
    }
  }

  function ToBase58(checksum: Checksum, address: string): Option<string> {
    var canonical := Canonicalize(checksum, address);
    if canonical.None? || Base64.Decode(canonical.value).None? then None
    else Some(Base58Form(checksum, Base64.Decode(canonical.value).value))
  }

  function ToHex(checksum: Checksum, address: string): Option<string> {
    var canonical := Canonicalize(checksum, address);
    if canonical.None? || Base64.Decode(canonical.value).None? then None
    else Some(HexForm(Base64.Decode(canonical.value).value))
  }

  function ToBech32(checksum: Checksum, address: string): Option<string> {
    var canonical := Canonicalize(checksum, address);
    if canonical.None? || Base64.Decode(canonical.value).None? then None
    else Some(Bech32Form(Base64.Decode(canonical.value).value))
  }

  /** Main result: converting an address to another format never changes what it stands for. */
  lemma ConversionsKeepAddress(checksum: Checksum, address: string)
    requires Canonicalize(checksum, address).Some?
    ensures ToBase58(checksum, address).Some?
            && Canonicalize(checksum, ToBase58(checksum, address).value) == Canonicalize(checksum, address)
    ensures ToHex(checksum, address).Some?
            && Canonicalize(checksum, ToHex(checksum, address).value) == Canonicalize(checksum, address)
    ensures ToBech32(checksum, address).Some?
            && Canonicalize(checksum, ToBech32(checksum, address).value) == Canonicalize(checksum, address)
    ensures Canonicalize(checksum, Canonicalize(checksum, address).value) == Canonicalize(checksum, address)
  {
    hide Canonicalize, Base58Form, HexForm, Base64.Encode, Bech32Form, Base64.Decode;
    var payload := CanonicalPayload(checksum, address);
    Base64.DecodeEncode(payload);
    FormatsAgree(checksum, payload);
  }
}
