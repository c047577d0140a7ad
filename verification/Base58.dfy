/** Base 58 text: in-place long division and in-place multiply-and-carry, and why they undo each other. */
module Base58 {
  import opened Arith
  import opened Primitives
  import opened Radix

  // ---------------------------------------------------------------------------
  // The alphabet 123456789ABCDEFGHJKLMNPQRSTUVWXYZabcdefghijkmnopqrstuvwxyz
  // ---------------------------------------------------------------------------

  function CharFrom(first: char, k: nat): char
    requires first as nat + k < 0xD800
  {
    (first as nat + k) as char
  }

  function Letter(d: nat): (c: char)
    requires d < 58
    ensures DigitOf(c) == Some(d)
  {
    if d < 9 then CharFrom('1', d)
    else if d < 17 then CharFrom('A', d - 9)
    else if d < 22 then CharFrom('J', d - 17)
    else if d < 33 then CharFrom('P', d - 22)
    else if d < 44 then CharFrom('a', d - 33)
    else CharFrom('m', d - 44)
  }

  function DigitOf(c: char): (d: Option<nat>)
    ensures d.Some? ==> d.value < 58
  {
    if '1' <= c <= '9' then Some(c as nat - '1' as nat)
    else if 'A' <= c <= 'H' then Some(c as nat - 'A' as nat + 9)
    else if 'J' <= c <= 'N' then Some(c as nat - 'J' as nat + 17)
    else if 'P' <= c <= 'Z' then Some(c as nat - 'P' as nat + 22)
    else if 'a' <= c <= 'k' then Some(c as nat - 'a' as nat + 33)
    else if 'm' <= c <= 'z' then Some(c as nat - 'm' as nat + 44)
    else None
  }

  lemma LetterOfDigit(c: char)
    requires DigitOf(c).Some?
    ensures Letter(DigitOf(c).value) == c
  {
  }

  /** The alphabet is the digits and letters in ASCII order, without 0, I, O and l. */
  lemma Alphabet(c: char, d: char)
    ensures DigitOf(c).Some? <==> ('1' <= c <= '9' || 'A' <= c <= 'Z' || 'a' <= c <= 'z') && c != 'I' && c != 'O' && c != 'l'
    ensures DigitOf(c).Some? && DigitOf(d).Some? && c < d ==> DigitOf(c).value < DigitOf(d).value
  {
  }

  lemma OneIsZero(c: char)
    ensures DigitOf(c) == Some(0) <==> c == '1'
    ensures Letter(0) == '1'
  {
  }

  function Text(ds: seq<nat>): (t: string)
    requires AreDigits(58, ds)
    ensures |t| == |ds| && forall i :: 0 <= i < |ds| ==> t[i] == Letter(ds[i])
  {
    seq(|ds|, i requires 0 <= i < |ds| => Letter(ds[i]))
  }

  predicate IsBase58(text: string) {
    forall i :: 0 <= i < |text| ==> DigitOf(text[i]).Some?
  }

  function DigitsOfText(text: string): (ds: seq<nat>)
    requires IsBase58(text)
    ensures |ds| == |text| && AreDigits(58, ds)
    ensures forall i :: 0 <= i < |text| ==> ds[i] == DigitOf(text[i]).value
  {
    seq(|text|, i requires 0 <= i < |text| => DigitOf(text[i]).value)
  }

  lemma DigitsText(text: string)
    requires IsBase58(text)
    ensures Text(DigitsOfText(text)) == text
  {
    hide Letter, DigitOf;
    forall i | 0 <= i < |text|
      ensures Text(DigitsOfText(text))[i] == text[i]
    {
      LetterOfDigit(text[i]);
    }
  }

  // ---------------------------------------------------------------------------
  // Specification
  // ---------------------------------------------------------------------------

  function LeadingZeros(s: seq<nat>): (n: nat)
    ensures n <= |s| && (forall i :: 0 <= i < n ==> s[i] == 0) && (n < |s| ==> s[n] != 0)
  {
    if s == [] || s[0] != 0 then 0 else 1 + LeadingZeros(s[1..])
  }

  function LeadingOnes(s: string): (n: nat)
    ensures n <= |s| && (forall i :: 0 <= i < n ==> s[i] == '1') && (n < |s| ==> s[n] != '1')
  {
    if s == [] || s[0] != '1' then 0 else 1 + LeadingOnes(s[1..])
  }

  function Zeros(n: nat): (s: seq<Byte>)
    ensures |s| == n && forall i :: 0 <= i < n ==> s[i] == 0
  {
    seq<Byte>(n, i requires 0 <= i < n => 0)
  }

  function Ones(n: nat): (s: string)
    ensures |s| == n && forall i :: 0 <= i < n ==> s[i] == '1'
  {
    seq(n, i requires 0 <= i < n => '1')
  }

  /** One letter '1' per leading zero byte, then the number in base 58. */
  function Encode(data: seq<Byte>): string {
    Ones(LeadingZeros(data)) + Text(Digits(58, Value(0x100, data)))
  }

  function AsBytes(ds: seq<nat>): (b: seq<Byte>)
    requires AreDigits(0x100, ds)
    ensures |b| == |ds| && forall i :: 0 <= i < |ds| ==> b[i] == ds[i]
  {
    seq(|ds|, i requires 0 <= i < |ds| => ds[i])
  }

  /** Text with a letter outside the alphabet is refused. */
  function Decode(text: string): Option<seq<Byte>> {
    if !IsBase58(text) then None
    else Some(Zeros(LeadingOnes(text)) + AsBytes(Digits(0x100, Value(58, DigitsOfText(text)))))
  }

  // ---------------------------------------------------------------------------
  // The two directions undo each other
  // ---------------------------------------------------------------------------

  lemma {:induction false} SplitZeros(n: nat, rest: seq<nat>)
    requires rest == [] || rest[0] != 0
    ensures LeadingZeros(Zeros(n) + rest) == n
  {
    if n == 0 {
      assert Zeros(n) + rest == rest;
    } else {
      SplitZeros(n - 1, rest);
      assert (Zeros(n) + rest)[1..] == Zeros(n - 1) + rest;
    }
  }

  lemma {:induction false} SplitOnes(n: nat, rest: string)
    requires rest == [] || rest[0] != '1'
    ensures LeadingOnes(Ones(n) + rest) == n
  {
    if n == 0 {
      assert Ones(n) + rest == rest;
    } else {
      SplitOnes(n - 1, rest);
      assert (Ones(n) + rest)[1..] == Ones(n - 1) + rest;
    }
  }

  lemma AfterZeros(ds: seq<nat>, z: nat)
    requires z == LeadingZeros(ds)
    ensures ds == Zeros(z) + ds[z..] && (ds[z..] == [] || ds[z..][0] != 0)
    ensures forall b :: Value(b, ds) == Value(b, ds[z..])
  {
    hide Value;
    assert ds == Zeros(z) + ds[z..];
    forall b: nat
      ensures Value(b, ds) == Value(b, ds[z..])
    {
      ValueLeadingZeros(b, Zeros(z), ds[z..]);
    }
  }

  /** Main result: every byte string comes back. */
  lemma DecodeEncode(data: seq<Byte>)
    ensures Decode(Encode(data)) == Some(data)
  {
    hide Digits, Value, Letter, DigitOf, Text, DigitsOfText;
    var z, ds := LeadingZeros(data), Digits(58, Value(0x100, data));
    AfterZeros(data, z);
    DigitsOfValue(0x100, data[z..]);
    EncodedDigits(z, ds);
    FirstLetter(ds);
    SplitOnes(z, Text(ds));
    ValueLeadingZeros(58, Zeros(z), ds);
    ValueOfDigits(58, Value(0x100, data));
    assert AsBytes(data[z..]) == data[z..];
  }

  lemma FirstLetter(ds: seq<nat>)
    requires AreDigits(58, ds) && (ds == [] || ds[0] != 0)
    ensures Text(ds) == [] || Text(ds)[0] != '1'
  {
    hide Letter, DigitOf;
    if ds != [] { OneIsZero(Letter(ds[0])); }
  }

  lemma EncodedDigits(z: nat, ds: seq<nat>)
    requires AreDigits(58, ds)
    ensures var text := Ones(z) + Text(ds); IsBase58(text) && DigitsOfText(text) == Zeros(z) + ds
  {
    hide Letter, DigitOf;
    OneIsZero('1');
    var text := Ones(z) + Text(ds);
    forall i | 0 <= i < |text|
      ensures DigitOf(text[i]) == Some((Zeros(z) + ds)[i])
    {
      if z <= i {
        assert text[i] == Letter(ds[i - z]);
      }
    }
  }

  /** Main result: every text of the alphabet comes back. */
  lemma EncodeDecode(text: string)
    requires IsBase58(text)
    ensures Encode(Decode(text).value) == text
  {
    hide Digits, Value, Letter, DigitOf, Text;
    var z, all := LeadingOnes(text), DigitsOfText(text);
    SameLeading(text);
    AfterZeros(all, z);
    var ds := all[z..];
    DigitsOfValue(58, ds);
    var v := Value(58, ds);
    var bytes := AsBytes(Digits(0x100, v));
    assert bytes == Digits(0x100, v);
    SplitZeros(z, bytes);
    ValueLeadingZeros(0x100, Zeros(z), bytes);
    ValueOfDigits(0x100, v);
    assert Decode(text).value == Zeros(z) + bytes;
    DigitsText(text);
    TextParts(z, ds, text);
  }

  /** Bytes and text are the same number in base 256 and base 58, and have as many leading zeros as leading ones. */
  lemma SameNumber(data: seq<Byte>)
    ensures IsBase58(Encode(data)) && Value(58, DigitsOfText(Encode(data))) == Value(0x100, data)
    ensures LeadingOnes(Encode(data)) == LeadingZeros(data)
  {
    hide Digits, Value, Letter, DigitOf, Text, DigitsOfText;
    var z, ds := LeadingZeros(data), Digits(58, Value(0x100, data));
    EncodedDigits(z, ds);
    FirstLetter(ds);
    SplitOnes(z, Text(ds));
    ValueLeadingZeros(58, Zeros(z), ds);
    ValueOfDigits(58, Value(0x100, data));
  }

  lemma {:induction false} SameLeading(text: string)
    requires IsBase58(text)
    ensures LeadingZeros(DigitsOfText(text)) == LeadingOnes(text)
  {
    hide DigitOf;
    if text != "" {
      OneIsZero(text[0]);
      SameLeading(text[1..]);
      assert DigitsOfText(text)[1..] == DigitsOfText(text[1..]);
    }
  }

  lemma TextParts(z: nat, ds: seq<nat>, text: string)
    requires AreDigits(58, ds) && AreDigits(58, Zeros(z) + ds) && Text(Zeros(z) + ds) == text
    ensures text == Ones(z) + Text(ds)
  {
    hide Letter, DigitOf;
    OneIsZero('1');
    forall i | 0 <= i < |text|
      ensures text[i] == (Ones(z) + Text(ds))[i]
    {
      assert text[i] == Letter((Zeros(z) + ds)[i]);
    }
  }

  // ---------------------------------------------------------------------------
  // In place
  // ---------------------------------------------------------------------------

  /** Divides the number in input[start..] by 58 in place. */
  method DivideInPlace(input: array<Byte>, start: nat) returns (remainder: nat)
    requires start <= input.Length
    modifies input
    ensures remainder < 58
    ensures forall i :: 0 <= i < start ==> input[i] == old(input[i])
    ensures Value(0x100, old(input[start..])) == Product(Value(0x100, input[start..]), 58) + remainder
  {
    hide Product, Value;
    ghost var before := input[..];
    remainder := 0;
    assert before[start..start] == [] && input[start..start] == [];
    NothingDivided();
    for i := start to input.Length
      invariant remainder < 58
      invariant forall k :: 0 <= k < start ==> input[k] == before[k]
      invariant forall k :: i <= k < input.Length ==> input[k] == before[k]
      invariant Value(0x100, before[start..i]) == Product(Value(0x100, input[start..i]), 58) + remainder
    {
      var value := remainder * 0x100 + input[i];
      ghost var q := Value(0x100, input[start..i]);
      ghost var done := input[start..i];
      DivideStep(q, remainder, input[i]);
      input[i] := value / 58;
      remainder := value % 58;
      assert before[start..i + 1] == before[start..i] + [before[i]];
      assert input[start..i + 1] == done + [value / 58];
      ValueSnoc(0x100, before[start..i], before[i]);
      ValueSnoc(0x100, done, value / 58);
    }
    assert before[start..input.Length] == old(input[start..]);
    assert input[start..input.Length] == input[start..];
  }

  lemma NothingDivided()
    ensures Value(0x100, []) == 0 && Product(0, 58) == 0
  {
  }

  /** One digit of the long division. */
  lemma DivideStep(q: nat, r: nat, d: nat)
    requires r < 58 && d < 0x100
    ensures var v := r * 0x100 + d;
            v / 58 < 0x100 && v % 58 < 58
            && Product(Product(q, 58) + r, 0x100) + d == Product(Product(q, 0x100) + v / 58, 58) + v % 58
  {
    var v := r * 0x100 + d;
    assert v == v / 58 * 58 + v % 58;
  }

  function Reversed(s: string): (r: string)
    ensures |r| == |s| && forall i :: 0 <= i < |s| ==> r[i] == s[|s| - 1 - i]
  {
    seq(|s|, i requires 0 <= i < |s| => s[|s| - 1 - i])
  }

  /** The letters found so far, lowest first, are the digits `high`, and with the number left they make up n. */
  ghost predicate Spelled(n: nat, left: nat, letters: string, high: seq<nat>) {
    AreDigits(58, high) && Reversed(letters) == Text(high) && Digits(58, n) == Digits(58, left) + high
  }

  lemma SpelledMore(n: nat, q: nat, r: nat, letters: string, high: seq<nat>)
    requires r < 58 && 0 < Product(q, 58) + r && Spelled(n, Product(q, 58) + r, letters, high)
    ensures Spelled(n, q, letters + [Letter(r)], [r] + high)
  {
    hide Product, Digits, Letter, DigitOf, Text, Reversed;
    assert 0 < q || 0 < r by {
      ProductPositive(q, 58);
    }
    DigitsSnoc(58, q, r);
    assert Digits(58, q) + [r] + high == Digits(58, q) + ([r] + high);
    LetterInFront(r, letters, high);
  }

  lemma LetterInFront(r: nat, letters: string, high: seq<nat>)
    requires r < 58 && AreDigits(58, high) && Reversed(letters) == Text(high)
    ensures AreDigits(58, [r] + high) && Reversed(letters + [Letter(r)]) == Text([r] + high)
  {
    hide Letter, DigitOf;
    assert Reversed(letters + [Letter(r)]) == [Letter(r)] + Reversed(letters);
    assert Text([r] + high) == [Letter(r)] + Text(high);
  }

  lemma SpelledAll(n: nat, letters: string, high: seq<nat>)
    requires Spelled(n, 0, letters, high)
    ensures Reversed(letters) == Text(Digits(58, n))
  {
    hide Letter, DigitOf;
    assert Digits(58, 0) + high == high;
  }

  lemma SpelledNone(n: nat)
    ensures Spelled(n, n, "", [])
  {
    hide Digits;
    assert Digits(58, n) + [] == Digits(58, n);
  }

  lemma {:induction false} FirstDigitCounts(b: nat, ds: seq<nat>)
    requires 0 < b && ds != [] && ds[0] != 0
    ensures 0 < Value(b, ds)
    decreases |ds|
  {
    hide Product;
    if 1 < |ds| {
      FirstDigitCounts(b, ds[..|ds| - 1]);
      ProductPositive(Value(b, ds[..|ds| - 1]), b);
    }
  }

  lemma SkipZero(ds: seq<nat>)
    requires ds != [] && ds[0] == 0
    ensures Value(0x100, ds) == Value(0x100, ds[1..])
  {
    ValueLeadingZeros(0x100, [0], ds[1..]);
    assert [0] + ds[1..] == ds;
  }

  /** Skips zero bytes; the number does not change. */
  method SkipZeros(input: array<Byte>, from: nat) returns (start: nat)
    requires from <= input.Length
    ensures from <= start <= input.Length && (start < input.Length ==> input[start] != 0)
    ensures Value(0x100, input[start..]) == Value(0x100, input[from..])
    ensures forall i :: from <= i < start ==> input[i] == 0
  {
    hide Value;
    start := from;
    while start < input.Length && input[start] == 0
      invariant from <= start <= input.Length
      invariant Value(0x100, input[start..]) == Value(0x100, input[from..])
      invariant forall i :: from <= i < start ==> input[i] == 0
    {
      SkipZero(input[start..]);
      assert input[start..][1..] == input[start + 1..];
      start := start + 1;
    }
  }

  /** Repeated division by 58 in place. */
  method EncodeBytes(data: seq<Byte>) returns (out: string)
    ensures out == Encode(data)
  {
    hide Value, Digits, Letter, Spelled, Product;
    var input := new Byte[|data|](i requires 0 <= i < |data| => data[i]);
    assert input[..] == data;
    var zeros := SkipZeros(input, 0);
    ZerosCounted(data, zeros);
    assert input[0..] == data;
    ghost var n := Value(0x100, data);
    ghost var high: seq<nat> := [];
    var letters := "";
    var start := zeros;
    SpelledNone(n);
    while start < input.Length
      invariant start <= input.Length && (start < input.Length ==> input[start] != 0)
      invariant Spelled(n, Value(0x100, input[start..]), letters, high)
      decreases Value(0x100, input[start..])
    {
      FirstDigitCounts(0x100, input[start..]);
      var remainder := DivideInPlace(input, start);
      ghost var q := Value(0x100, input[start..]);
      SpelledMore(n, q, remainder, letters, high);
      QuotientShrinks(q, remainder);
      letters, high := letters + [Letter(remainder)], [remainder] + high;
      start := SkipZeros(input, start);
    }
    assert input[start..] == [];
    EmptyIsZero();
    SpelledAll(n, letters, high);
    out := Ones(zeros) + Reversed(letters);
  }

  lemma EmptyIsZero()
    ensures Value(0x100, []) == 0
  {
  }

  lemma QuotientShrinks(q: nat, r: nat)
    requires 0 < Product(q, 58) + r
    ensures q < Product(q, 58) + r
  {
  }

  lemma ZerosCounted(data: seq<Byte>, zeros: nat)
    requires zeros <= |data| && (forall i :: 0 <= i < zeros ==> data[i] == 0) && (zeros < |data| ==> data[zeros] != 0)
    ensures LeadingZeros(data) == zeros
  {
    assert data == Zeros(zeros) + data[zeros..];
    SplitZeros(zeros, data[zeros..]);
  }

  // ---------------------------------------------------------------------------
  // Decoding in place
  // ---------------------------------------------------------------------------

  /** Multiplies the number in a buffer by 58 and adds a carry, in place; what does not fit is left over. */
  method MultiplyAdd(decoded: array<Byte>, digit: nat) returns (carry: nat)
    requires digit < 58
    modifies decoded
    ensures carry < 58
    ensures Product(carry, Power(0x100, decoded.Length)) + Value(0x100, decoded[..])
            == Product(Value(0x100, old(decoded[..])), 58) + digit
  {
    hide Product, Value, Power;
    ghost var before := decoded[..];
    carry := digit;
    var i := decoded.Length;
    assert before[i..] == [] && decoded[i..] == [];
    MultiplyNone(digit);
    while 0 < i
      invariant 0 <= i <= decoded.Length && carry < 58
      invariant forall k :: 0 <= k < i ==> decoded[k] == before[k]
      invariant Product(carry, Power(0x100, |before| - i)) + Value(0x100, decoded[i..])
                == Product(Value(0x100, before[i..]), 58) + digit
    {
      i := i - 1;
      var next: nat := carry + 58 * (decoded[i] as int);
      ghost var tail := decoded[i + 1..];
      MultiplyStep(carry, before[i], next / 0x100, next % 0x100, before[i + 1..], tail, digit);
      decoded[i] := next % 0x100;
      carry := next / 0x100;
      assert decoded[i..] == [next % 0x100] + tail;
      assert before[i..] == [before[i]] + before[i + 1..];
    }
    assert decoded[0..] == decoded[..] && before[0..] == before;
  }

  lemma MultiplyNone(digit: nat)
    ensures Product(digit, Power(0x100, 0)) + Value(0x100, []) == Product(Value(0x100, []), 58) + digit
  {
  }

  /** The value of a string by its first digit. */
  lemma {:induction false} ValueCons(b: nat, d: nat, ds: seq<nat>)
    ensures Value(b, [d] + ds) == Product(d, Power(b, |ds|)) + Value(b, ds)
    decreases |ds|
  {
    hide Product;
    if ds == [] {
      ProductOne(d);
      ProductZero(b);
      assert [d] + ds == [] + [d];
      ValueSnoc(b, [], d);
    } else {
      var front, last := ds[..|ds| - 1], ds[|ds| - 1];
      ValueCons(b, d, front);
      assert [d] + ds == ([d] + front) + [last];
      assert ds == front + [last];
      ValueSnoc(b, [d] + front, last);
      ValueSnoc(b, front, last);
      ConsAlgebra(d, Power(b, |front|), Value(b, front), b);
    }
  }

  lemma ConsAlgebra(d: nat, p: nat, v: nat, b: nat)
    ensures Product(Product(d, p) + v, b) == Product(d, Product(p, b)) + Product(v, b)
  {
    assert (d * p + v) * b == d * p * b + v * b;
    assert d * p * b == d * (p * b);
  }

  /** One digit of the multiplication: low digit r, carry q. */
  lemma MultiplyStep(carry: nat, d: nat, q: nat, r: nat, rest: seq<nat>, tail: seq<nat>, digit: nat)
    requires |tail| == |rest| && q * 0x100 + r == carry + 58 * d
    requires Product(carry, Power(0x100, |rest|)) + Value(0x100, tail) == Product(Value(0x100, rest), 58) + digit
    ensures Product(q, Power(0x100, |rest| + 1)) + Value(0x100, [r] + tail) == Product(Value(0x100, [d] + rest), 58) + digit
  {
    hide *;
    var p, t, v := Power(0x100, |rest|), Value(0x100, tail), Value(0x100, rest);
    ValueCons(0x100, r, tail);
    ValueCons(0x100, d, rest);
    PowerStep(|rest|);
    CarryAlgebra(carry, d, q, r, p, t, v, digit);
    assert Power(0x100, |rest| + 1) == Product(p, 0x100);
    assert Value(0x100, [r] + tail) == Product(r, p) + t;
  }

  lemma PowerStep(n: nat)
    ensures Power(0x100, n + 1) == Product(Power(0x100, n), 0x100)
  {
  }

  lemma CarryAlgebra(carry: nat, d: nat, q: nat, r: nat, p: nat, tail: nat, rest: nat, digit: nat)
    requires q * 0x100 + r == carry + 58 * d && Product(carry, p) + tail == Product(rest, 58) + digit
    ensures Product(q, Product(p, 0x100)) + (Product(r, p) + tail) == Product(Product(d, p) + rest, 58) + digit
  {
    assert q * (p * 0x100) == (q * 0x100) * p;
    assert (q * 0x100) * p + r * p == (q * 0x100 + r) * p;
    assert (carry + 58 * d) * p == carry * p + 58 * d * p;
    assert 58 * d * p == (d * p) * 58;
  }

  /** Puts a leftover carry in front, lowest byte first. */
  method PrependCarry(decoded: array<Byte>, carry: nat) returns (grown: array<Byte>)
    requires carry < 58
    ensures grown == decoded || fresh(grown)
    ensures grown[..] == if carry == 0 then decoded[..] else [carry] + decoded[..]
  {
    grown := decoded;
    var left := carry;
    while left > 0
      invariant left == carry || left == 0
      invariant grown == decoded || fresh(grown)
      invariant grown[..] == if left == carry then decoded[..] else [carry] + decoded[..]
      decreases left
    {
      var front: Byte := left % 0x100;
      grown := new Byte[decoded.Length + 1](i requires 0 <= i <= decoded.Length reads decoded =>
        if i == 0 then front else decoded[i - 1]);
      assert grown[..] == [front] + decoded[..];
      left := left / 0x100;
    }
  }

  /** The buffer after one more letter still has no leading zero. */
  lemma NoLeadingZero(before: seq<nat>, after: seq<nat>, carry: nat, digit: nat)
    requires AreDigits(0x100, before) && AreDigits(0x100, after) && |after| == |before| && (before == [] || before[0] != 0)
    requires Product(carry, Power(0x100, |after|)) + Value(0x100, after) == Product(Value(0x100, before), 58) + digit
    ensures carry == 0 ==> after == [] || after[0] != 0
    ensures var grown := if carry == 0 then after else [carry] + after; Value(0x100, grown) == Product(Value(0x100, before), 58) + digit
  {
    hide Value, Power, Product;
    if carry != 0 {
      ValueCons(0x100, carry, after);
    } else {
      ProductZero(Power(0x100, |after|));
      if before != [] {
        TopByteCounts(before);
        GrowsOnly(Value(0x100, before), digit);
        if after[0] == 0 {
          assert after == [0] + after[1..];
          ValueLeadingZeros(0x100, [0], after[1..]);
          ValueBound(0x100, after[1..]);
        }
      }
    }
  }

  lemma ProductOne(d: nat)
    ensures Product(d, 1) == d
  {
  }

  lemma ProductZero(p: nat)
    ensures Product(0, p) == 0
  {
  }

  lemma GrowsOnly(v: nat, digit: nat)
    ensures v <= Product(v, 58) + digit
  {
  }

  lemma TopByteCounts(ds: seq<nat>)
    requires ds != [] && ds[0] != 0
    ensures Power(0x100, |ds| - 1) <= Value(0x100, ds)
  {
    hide Value, Power;
    assert ds == [ds[0]] + ds[1..];
    ValueCons(0x100, ds[0], ds[1..]);
    MulMono(1, ds[0], Power(0x100, |ds| - 1));
  }

  /** The buffer holds the shortest bytes of the letters read so far. */
  ghost predicate Holds(bytes: seq<Byte>, digits: seq<nat>) {
    AreDigits(58, digits) && Value(0x100, bytes) == Value(58, digits) && (bytes == [] || bytes[0] != 0)
  }

  lemma HoldsMore(bytes: seq<Byte>, digits: seq<nat>, after: seq<Byte>, carry: nat, digit: nat, grown: seq<Byte>)
    requires Holds(bytes, digits) && digit < 58 && |after| == |bytes| && carry < 58
    requires Product(carry, Power(0x100, |after|)) + Value(0x100, after) == Product(Value(0x100, bytes), 58) + digit
    requires grown == if carry == 0 then after else [carry] + after
    ensures Holds(grown, digits + [digit])
  {
    hide Value, Power, Product;
    NoLeadingZero(bytes, after, carry, digit);
    ValueSnoc(58, digits, digit);
  }

  lemma HoldsAll(bytes: seq<Byte>, digits: seq<nat>)
    requires Holds(bytes, digits)
    ensures AsBytes(Digits(0x100, Value(58, digits))) == bytes
  {
    hide Value, Digits;
    DigitsOfValue(0x100, bytes);
  }

  lemma HoldsNothing()
    ensures Holds([], [])
  {
  }

  /** Multiplies and carries letter by letter; text with a foreign letter is refused. */
  method DecodeText(text: string) returns (out: Option<seq<Byte>>)
    ensures out == Decode(text)
  {
    hide Digits, Value, DigitOf, Power, Product, Holds;
    if text == "" {
      DecodeEmpty();
      return Some([]);
    }
    var zeros := CountOnes(text);
    var decoded := new Byte[0];
    assert decoded[..] == [];
    HoldsNothing();
    ghost var digits: seq<nat> := [];
    for i := 0 to |text|
      invariant forall k :: 0 <= k < i ==> DigitOf(text[k]).Some?
      invariant |digits| == i && forall k :: 0 <= k < i ==> digits[k] == DigitOf(text[k]).value
      invariant Holds(decoded[..], digits) && fresh(decoded)
    {
      var digit := DigitOf(text[i]);
      if digit.None? {
        return None;
      }
      ghost var before := decoded[..];
      var carry := MultiplyAdd(decoded, digit.value);
      ghost var after := decoded[..];
      decoded := PrependCarry(decoded, carry);
      HoldsMore(before, digits, after, carry, digit.value, decoded[..]);
      digits := digits + [digit.value];
    }
    assert digits == DigitsOfText(text);
    HoldsAll(decoded[..], digits);
    out := Some(Zeros(zeros) + decoded[..]);
  }

  lemma DecodeEmpty()
    ensures Decode("") == Some([])
  {
    assert DigitsOfText("") == [] && Digits(0x100, 0) == [];
    assert AsBytes([]) == [];
    assert Zeros(0) + [] == [];
  }

  method CountOnes(text: string) returns (zeros: nat)
    ensures zeros == LeadingOnes(text)
  {
    zeros := 0;
    while zeros < |text| && text[zeros] == '1'
      invariant zeros <= |text| && forall i :: 0 <= i < zeros ==> text[i] == '1'
    {
      zeros := zeros + 1;
    }
    SplitOnes(zeros, text[zeros..]);
    assert text == Ones(zeros) + text[zeros..];
  }

  // ---------------------------------------------------------------------------
  // Length
  // ---------------------------------------------------------------------------

  /** Bytes without leading zero take few letters. */
  lemma EncodedLength(data: seq<Byte>, k: nat)
    requires data != [] && data[0] != 0 && Power(0x100, |data|) <= Power(58, k)
    ensures |Encode(data)| <= k
  {
    hide Value, Power, Digits, Letter, DigitOf;
    ValueBound(0x100, data);
    DigitsBound(58, Value(0x100, data), k);
    assert LeadingZeros(data) == 0;
  }
}
