/** Base58: the encoder of the on-chain verification script and the decoder that inverts it. */
module Base58 {
  import opened Common
  import opened Numerals

  /** Digits, upper-case and lower-case letters without 0, I, O and l. */
  const ALPHABET := "123456789" + "ABCDEFGHJKLMNPQRSTUVWXYZ" + "abcdefghijkmnopqrstuvwxyz"

  function Letter(d: nat): char
    requires d < 58
  {
    ALPHABET[d]
  }

  ghost predicate Bytes(b: seq<nat>) {
    Digits(256, b)
  }

  function LeadingZeroCount(b: seq<nat>): (k: nat)
    ensures k <= |b| && (forall i :: 0 <= i < k ==> b[i] == 0) && (k < |b| ==> b[k] != 0)
  {
    if b == [] || b[0] != 0 then 0 else 1 + LeadingZeroCount(b[1..])
  }

  function Letters(ds: seq<nat>): (s: string)
    requires forall i :: 0 <= i < |ds| ==> ds[i] < 58
    ensures |s| == |ds|
  {
    seq(|ds|, i requires 0 <= i < |ds| => Letter(ds[i]))
  }

  function Ones(k: nat): string {
    seq(k, i => '1')
  }

  /** The text of a byte string: a '1' per leading zero byte, then the base-58 numeral of its value. */
  ghost function Encode(b: seq<nat>): string {
    MinimalFacts(58, Value(256, b));
    Ones(LeadingZeroCount(b)) + Letters(Minimal(58, Value(256, b)))
  }

  function Reverse<T>(s: seq<T>): (r: seq<T>)
    ensures |r| == |s| && forall i :: 0 <= i < |s| ==> r[i] == s[|s| - 1 - i]
  {
    seq(|s|, i requires 0 <= i < |s| => s[|s| - 1 - i])
  }

  lemma PrependLetter(r: nat, ds: seq<nat>, res: string)
    requires r < 58 && Digits(58, ds) && Reverse(res) == Letters(ds)
    ensures Digits(58, [r] + ds) && Reverse(res + [Letter(r)]) == Letters([r] + ds)
  {
    hide Letter;
    assert Reverse(res + [Letter(r)]) == [Letter(r)] + Reverse(res);
    assert Letters([r] + ds) == [Letter(r)] + Letters(ds);
  }

  method B58Encode(b: seq<nat>) returns (text: string)
    requires Bytes(b)
    ensures text == Encode(b)
  {
    hide Letter;
    var n := Value(256, b);
    var res: string := [];
    ghost var ds: seq<nat> := [];
    while n > 0
      invariant Digits(58, ds) && Reverse(res) == Letters(ds)
      invariant Minimal(58, n) + ds == Minimal(58, Value(256, b))
      decreases n
    {
      DivideOnce(n, ds);
      var r := n % 58;
      PrependLetter(r, ds, res);
      ds, n, res := [r] + ds, n / 58, res + [Letter(r)];
    }
    assert Minimal(58, 0) + ds == ds;
    var pad := 0;
    while pad < |b| && b[pad] == 0
      invariant pad <= LeadingZeroCount(b)
    {
      pad := pad + 1;
    }
    AppendPadding(res, pad);
    res := res + Ones(pad);
    text := Reverse(res);
  }

  lemma DivideOnce(n: nat, ds: seq<nat>)
    requires n > 0
    ensures n / 58 < n && Minimal(58, n / 58) + ([n % 58] + ds) == Minimal(58, n) + ds
  {
    hide Minimal;
    Shrinks(58, n);
    MinimalSnoc(58, n);
    var front, r := Minimal(58, n / 58), n % 58;
    assert front + [r] + ds == front + ([r] + ds);
  }

  lemma AppendPadding(res: string, pad: nat)
    ensures Reverse(res + Ones(pad)) == Ones(pad) + Reverse(res)
  {
  }

  // ----- decoding -----

  function DigitOf(c: char): Option<nat> {
    if '1' <= c <= '9' then Some((c - '1') as nat)
    else if 'A' <= c <= 'H' then Some(9 + (c - 'A') as nat)
    else if 'J' <= c <= 'N' then Some(17 + (c - 'J') as nat)
    else if 'P' <= c <= 'Z' then Some(22 + (c - 'P') as nat)
    else if 'a' <= c <= 'k' then Some(33 + (c - 'a') as nat)
    else if 'm' <= c <= 'z' then Some(44 + (c - 'm') as nat)
    else None
  }

  predicate Base58Text(s: string) {
    forall i :: 0 <= i < |s| ==> DigitOf(s[i]).Some?
  }

  function DigitsOf(s: string): (ds: seq<nat>)
    requires Base58Text(s)
    ensures |ds| == |s| && forall i :: 0 <= i < |s| ==> ds[i] == DigitOf(s[i]).value < 58
  {
    seq(|s|, i requires 0 <= i < |s| => DigitOf(s[i]).value)
  }

  /** Leading ones are zero bytes, the rest is a base-58 numeral of the remaining bytes. */
  function Decode(s: string): Option<seq<nat>> {
    if !Base58Text(s) then None
    else
      var ds := DigitsOf(s);
      var k := LeadingZeroCount(ds);
      Some(Zeros(k) + Minimal(256, Value(58, ds[k..])))
  }

  /** The letter of a digit by ranges, which the alphabet lists one by one. */
  function LetterOf(d: nat): char
    requires d < 58
  {
    if d < 9 then '1' + d as char
    else if d < 17 then 'A' + (d - 9) as char
    else if d < 22 then 'J' + (d - 17) as char
    else if d < 33 then 'P' + (d - 22) as char
    else if d < 44 then 'a' + (d - 33) as char
    else 'm' + (d - 44) as char
  }

  lemma AlphabetByRanges(d: nat)
    requires d < 58
    ensures Letter(d) == LetterOf(d)
  {
    hide Letter, LetterOf;
    if d < 17 {
      DigitsAndFirstLetters(d);
    } else if d < 33 {
      LaterCapitals(d);
    } else {
      SmallLetters(d);
    }
  }

  lemma DigitsAndFirstLetters(d: nat)
    requires d < 17
    ensures Letter(d) == LetterOf(d)
  {
  }

  lemma LaterCapitals(d: nat)
    requires 17 <= d < 33
    ensures Letter(d) == LetterOf(d)
  {
  }

  lemma SmallLetters(d: nat)
    requires 33 <= d < 58
    ensures Letter(d) == LetterOf(d)
  {
  }

  lemma AlphabetDigits(d: nat)
    requires d < 58
    ensures DigitOf(Letter(d)) == Some(d)
  {
    AlphabetByRanges(d);
    hide Letter;
  }

  lemma DigitAlphabet(c: char)
    requires DigitOf(c).Some?
    ensures DigitOf(c).value < 58 && Letter(DigitOf(c).value) == c
  {
    AlphabetByRanges(DigitOf(c).value);
    hide Letter;
  }

  /** The letters are the digits and letters of ASCII without 0, I, O and l, in ascending order. */
  lemma AlphabetExactly(a: char, b: char)
    ensures DigitOf(a).Some? <==>
      ('0' <= a <= '9' || 'A' <= a <= 'Z' || 'a' <= a <= 'z') && a !in {'0', 'I', 'O', 'l'}
    ensures DigitOf(a).Some? && DigitOf(b).Some? ==> (DigitOf(a).value < DigitOf(b).value <==> a < b)
  {
  }

  lemma LettersDigits(ds: seq<nat>)
    requires Digits(58, ds)
    ensures Base58Text(Letters(ds)) && DigitsOf(Letters(ds)) == ds
  {
    hide Letter;
    forall i | 0 <= i < |ds| ensures DigitOf(Letters(ds)[i]) == Some(ds[i]) {
      AlphabetDigits(ds[i]);
    }
  }

  lemma DigitsLetters(s: string)
    requires Base58Text(s)
    ensures Digits(58, DigitsOf(s)) && Letters(DigitsOf(s)) == s
  {
    hide Letter;
    forall i | 0 <= i < |s| ensures Letters(DigitsOf(s))[i] == s[i] {
      DigitAlphabet(s[i]);
    }
  }

  lemma ZeroLetters(k: nat)
    ensures Letters(Zeros(k)) == Ones(k)
  {
    assert Letter(0) == '1';
    hide Letter;
  }

  lemma LettersConcat(a: seq<nat>, b: seq<nat>)
    requires Digits(58, a) && Digits(58, b)
    ensures Digits(58, a + b) && Letters(a + b) == Letters(a) + Letters(b)
  {
    hide Letter;
  }

  lemma {:induction false} CountZeros(k: nat, ds: seq<nat>)
    requires ds != [] ==> ds[0] != 0
    ensures LeadingZeroCount(Zeros(k) + ds) == k
  {
    if k == 0 {
      assert Zeros(0) + ds == ds;
    } else {
      CountZeros(k - 1, ds);
      assert (Zeros(k) + ds)[1..] == Zeros(k - 1) + ds;
    }
  }

  lemma SplitZeros(ds: seq<nat>, k: nat)
    requires k == LeadingZeroCount(ds)
    ensures ds == Zeros(k) + ds[k..] && (ds[k..] != [] ==> ds[k..][0] != 0)
  {
  }

  /** The text of a byte string is the letters of its zeros and of its minimal base-58 numeral. */
  lemma EncodeDigits(b: seq<nat>)
    ensures Digits(58, Minimal(58, Value(256, b)))
    ensures Encode(b) == Letters(Zeros(LeadingZeroCount(b)) + Minimal(58, Value(256, b)))
  {
    hide Letter;
    MinimalFacts(58, Value(256, b));
    ZeroLetters(LeadingZeroCount(b));
    LettersConcat(Zeros(LeadingZeroCount(b)), Minimal(58, Value(256, b)));
  }

  /** Decoding recovers every byte string, the empty and all-zero ones included. */
  lemma DecodeEncode(b: seq<nat>)
    requires Bytes(b)
    ensures Decode(Encode(b)) == Some(b)
  {
    hide Letters;
    var k, n := LeadingZeroCount(b), Value(256, b);
    var ds := Zeros(k) + Minimal(58, n);
    EncodeDigits(b);
    MinimalFacts(58, n);
    LettersDigits(ds);
    CountZeros(k, Minimal(58, n));
    assert ds[k..] == Minimal(58, n);
    SplitZeros(b, k);
    LeadingZeros(256, k, b[k..]);
    MinimalUnique(256, b[k..]);
  }

  /** Every text over the alphabet is the text of the bytes it decodes to. */
  lemma EncodeDecode(s: string)
    requires Base58Text(s)
    ensures Decode(s).Some? && Bytes(Decode(s).value) && Encode(Decode(s).value) == s
  {
    hide Letters;
    var ds := DigitsOf(s);
    var k := LeadingZeroCount(ds);
    var n := Value(58, ds[k..]);
    var b := Zeros(k) + Minimal(256, n);
    DigitsLetters(s);
    SplitZeros(ds, k);
    MinimalUnique(58, ds[k..]);
    MinimalFacts(256, n);
    CountZeros(k, Minimal(256, n));
    LeadingZeros(256, k, Minimal(256, n));
    EncodeDigits(b);
  }

  /** Different byte strings have different texts. */
  lemma EncodeInjective(a: seq<nat>, b: seq<nat>)
    requires Bytes(a) && Bytes(b) && Encode(a) == Encode(b)
    ensures a == b
  {
    DecodeEncode(a);
    DecodeEncode(b);
  }

  /** The padding is exactly the leading zero bytes: the letter after it is never a '1'. */
  lemma PaddingIsExact(b: seq<nat>)
    requires Bytes(b)
    ensures var k := LeadingZeroCount(b);
      && k <= |Encode(b)| && Encode(b)[..k] == Ones(k)
      && (|Encode(b)| > k ==> Encode(b)[k] != '1')
      && (|Encode(b)| == k <==> |b| == k)
  {
    hide Letter, Minimal, Value, LeadingZeroCount;
    var k, n := LeadingZeroCount(b), Value(256, b);
    MinimalFacts(58, n);
    SplitZeros(b, k);
    LeadingZeros(256, k, b[k..]);
    if |Encode(b)| > k {
      AlphabetDigits(Minimal(58, n)[0]);
    }
    if |b| > k {
      ValuePositive(256, b[k..]);
    } else {
      assert b == Zeros(k);
      ZerosValue(256, k);
    }
  }
}
