/** The streaming Base64 encoder of XLN/Core/Utility/Base64.h, and the encoding of section 4 of RFC 4648. */
module Base64 {
  import opened Wrappers

  type Byte = bv8

  const UPPER: string := "ABCDEFGHIJKLMNOPQRSTUVWXYZ"
  const LOWER: string := "abcdefghijklmnopqrstuvwxyz"
  const DIGITS: string := "0123456789"
  const SIGNS: string := "+/"
  const ALPHABET: string := UPPER + LOWER + DIGITS + SIGNS
  const PAD: char := '='

  // ---------- The standard ----------

  /** Three octets joined to a 24-bit group, first octet first. */
  function Group(a: Byte, b: Byte, c: Byte): bv24 {
    ((a as bv24) << 16) | ((b as bv24) << 8) | (c as bv24)
  }

  /** The `k`-th sextet of a group, counted from the left. */
  function Sextet(g: bv24, k: nat): (v: Byte)
    requires k < 4
    ensures v < 64
  {
    if k == 0 then ((g >> 18) & 0x3f) as Byte
    else if k == 1 then ((g >> 12) & 0x3f) as Byte
    else if k == 2 then ((g >> 6) & 0x3f) as Byte
    else (g & 0x3f) as Byte
  }

  /** The character numbered `n` in the table of section 4. */
  function Letter(n: nat): char
    requires n < 64
  {
    if n < 26 then 'A' + n as char
    else if n < 52 then 'a' + (n - 26) as char
    else if n < 62 then '0' + (n - 52) as char
    else if n == 62 then '+' else '/'
  }

  function Number(c: char): (r: Option<nat>)
    ensures r.Some? ==> r.value < 64
  {
    if 'A' <= c <= 'Z' then Some(c as int - 'A' as int)
    else if 'a' <= c <= 'z' then Some(c as int - 'a' as int + 26)
    else if '0' <= c <= '9' then Some(c as int - '0' as int + 52)
    else if c == '+' then Some(62) else if c == '/' then Some(63) else None
  }

  function Digit(v: Byte): char
    requires v < 64
  {
    Letter(v as nat)
  }

  function OneDigit(a: Byte): string {
    [Digit(Sextet(Group(a, 0, 0), 0))]
  }

  function TwoDigits(a: Byte, b: Byte): string {
    var g := Group(a, b, 0);
    [Digit(Sextet(g, 0)), Digit(Sextet(g, 1))]
  }

  function ThreeDigits(a: Byte, b: Byte): string {
    var g := Group(a, b, 0);
    [Digit(Sextet(g, 0)), Digit(Sextet(g, 1)), Digit(Sextet(g, 2))]
  }

  function FourDigits(a: Byte, b: Byte, c: Byte): string {
    var g := Group(a, b, c);
    [Digit(Sextet(g, 0)), Digit(Sextet(g, 1)), Digit(Sextet(g, 2)), Digit(Sextet(g, 3))]
  }

  /** The encoding of the standard: whole groups, then a last group of one or two octets filled up with zero
      bits and padding. */
  function Encoding(bs: seq<Byte>): string {
    if bs == [] then ""
    else if |bs| == 1 then TwoDigits(bs[0], 0) + [PAD, PAD]
    else if |bs| == 2 then ThreeDigits(bs[0], bs[1]) + [PAD]
    else FourDigits(bs[0], bs[1], bs[2]) + Encoding(bs[3..])
  }

  /** The value of a character of the alphabet. */
  function Value(c: char): (r: Option<Byte>)
    ensures r.Some? ==> r.value < 64
  {
    match Number(c)
    case None => None
    case Some(n) => Some(n as Byte)
  }

  /** Four sextets joined to a group. */
  function Join(v: Byte, w: Byte, x: Byte, y: Byte): bv24 {
    ((v as bv24) << 18) | ((w as bv24) << 12) | ((x as bv24) << 6) | (y as bv24)
  }

  function Octet(g: bv24, k: nat): Byte
    requires k < 3
  {
    if k == 0 then ((g >> 16) & 0xff) as Byte
    else if k == 1 then ((g >> 8) & 0xff) as Byte
    else (g & 0xff) as Byte
  }

  /** A decoder for the standard's encoding. Only the last group may be padded, and the bits that padding
      leaves over must be zero. */
  function Decoded(t: string): Option<seq<Byte>> {
    if t == "" then Some([])
    else if |t| < 4 || Value(t[0]).None? || Value(t[1]).None? then None
    else
      var v, w := Value(t[0]).value, Value(t[1]).value;
      if |t| == 4 && t[2] == PAD && t[3] == PAD then
        var g := Join(v, w, 0, 0);
        if g & 0xffff == 0 then Some([Octet(g, 0)]) else None
      else if Value(t[2]).None? then None
      else
        var x := Value(t[2]).value;
        if |t| == 4 && t[3] == PAD then
          var g := Join(v, w, x, 0);
          if g & 0xff == 0 then Some([Octet(g, 0), Octet(g, 1)]) else None
        else if Value(t[3]).None? || Decoded(t[4..]).None? then None
        else
          var g := Join(v, w, x, Value(t[3]).value);
          Some([Octet(g, 0), Octet(g, 1), Octet(g, 2)] + Decoded(t[4..]).value)
  }

  lemma LetterNumber(n: nat)
    requires n < 64
    ensures Number(Letter(n)) == Some(n) && Letter(n) != PAD
  {
  }

  lemma DigitValue(v: Byte)
    requires v < 64
    ensures Value(Digit(v)) == Some(v) && Digit(v) != PAD
  {
    LetterNumber(v as nat);
    hide Letter, Number;
  }

  lemma JoinSextets(g: bv24)
    ensures Join(Sextet(g, 0), Sextet(g, 1), Sextet(g, 2), Sextet(g, 3)) == g
  {
  }

  lemma GroupOctets(a: Byte, b: Byte, c: Byte)
    ensures var g := Group(a, b, c);
            && Octet(g, 0) == a && Octet(g, 1) == b && Octet(g, 2) == c
            && (c == 0 ==> Sextet(g, 3) == 0 && g & 0xff == 0)
            && (b == 0 && c == 0 ==> Sextet(g, 2) == 0 && g & 0xffff == 0)
  {
  }

  /** The four characters of a group decode to its four sextets. */
  lemma GroupDigits(a: Byte, b: Byte, c: Byte)
    ensures var g := Group(a, b, c);
            && (forall k | 0 <= k < 4 :: Value(Digit(Sextet(g, k))) == Some(Sextet(g, k)) && Digit(Sextet(g, k)) != PAD)
            && Join(Sextet(g, 0), Sextet(g, 1), Sextet(g, 2), Sextet(g, 3)) == g
            && Octet(g, 0) == a && Octet(g, 1) == b && Octet(g, 2) == c
            && (c == 0 ==> Sextet(g, 3) == 0 && g & 0xff == 0)
            && (b == 0 && c == 0 ==> Sextet(g, 2) == 0 && g & 0xffff == 0)
  {
    var g := Group(a, b, c);
    GroupOctets(a, b, c);
    JoinSextets(g);
    hide Group, Join, Octet, Sextet, Digit, Value;
    forall k | 0 <= k < 4
      ensures Value(Digit(Sextet(g, k))) == Some(Sextet(g, k)) && Digit(Sextet(g, k)) != PAD
    {
      DigitValue(Sextet(g, k));
    }
  }

  lemma WholeGroup(a: Byte, b: Byte, c: Byte, rest: string)
    requires Decoded(rest).Some?
    ensures Decoded(FourDigits(a, b, c) + rest) == Some([a, b, c] + Decoded(rest).value)
  {
    hide Group, Join, Octet, Sextet, Digit, Value;
    GroupDigits(a, b, c);
    assert (FourDigits(a, b, c) + rest)[4..] == rest;
  }

  lemma PaddedGroups(a: Byte, b: Byte)
    ensures Decoded(TwoDigits(a, 0) + [PAD, PAD]) == Some([a])
    ensures Decoded(ThreeDigits(a, b) + [PAD]) == Some([a, b])
  {
    hide Group, Join, Octet, Sextet, Digit, Value;
    GroupDigits(a, 0, 0);
    GroupDigits(a, b, 0);
  }

  /** Decoding gives back what was encoded. */
  lemma {:induction false} RoundTrip(bs: seq<Byte>)
    ensures Decoded(Encoding(bs)) == Some(bs)
  {
    hide TwoDigits, ThreeDigits, FourDigits, Encoding, Decoded;
    EncodingCases(bs);
    if |bs| == 1 {
      PaddedGroups(bs[0], 0);
    } else if |bs| == 2 {
      PaddedGroups(bs[0], bs[1]);
    } else if |bs| >= 3 {
      RoundTrip(bs[3..]);
      WholeGroup(bs[0], bs[1], bs[2], Encoding(bs[3..]));
    }
  }

  lemma EncodingCases(bs: seq<Byte>)
    ensures bs == [] ==> Encoding(bs) == "" && Decoded("") == Some([])
    ensures |bs| == 1 ==> bs == [bs[0]] && Encoding(bs) == TwoDigits(bs[0], 0) + [PAD, PAD]
    ensures |bs| == 2 ==> bs == [bs[0], bs[1]] && Encoding(bs) == ThreeDigits(bs[0], bs[1]) + [PAD]
    ensures |bs| >= 3 ==> bs == [bs[0], bs[1], bs[2]] + bs[3..]
    ensures |bs| >= 3 ==> Encoding(bs) == FourDigits(bs[0], bs[1], bs[2]) + Encoding(bs[3..])
  {
    hide TwoDigits, ThreeDigits, FourDigits, Decoded, Encoding;
    NothingDecoded();
    Elements(bs);
    EncodingUnfolds(bs);
  }

  lemma EncodingUnfolds(bs: seq<Byte>)
    ensures bs == [] ==> Encoding(bs) == ""
    ensures |bs| == 1 ==> Encoding(bs) == TwoDigits(bs[0], 0) + [PAD, PAD]
    ensures |bs| == 2 ==> Encoding(bs) == ThreeDigits(bs[0], bs[1]) + [PAD]
    ensures |bs| >= 3 ==> Encoding(bs) == FourDigits(bs[0], bs[1], bs[2]) + Encoding(bs[3..])
  {
    hide TwoDigits, ThreeDigits, FourDigits, Digit;
  }

  lemma NothingDecoded()
    ensures Decoded("") == Some([])
  {
  }

  lemma Elements(bs: seq<Byte>)
    ensures |bs| == 1 ==> bs == [bs[0]]
    ensures |bs| == 2 ==> bs == [bs[0], bs[1]]
    ensures |bs| >= 3 ==> bs == [bs[0], bs[1], bs[2]] + bs[3..]
  {
  }

  /** Test vectors of section 10 of RFC 4648, and one with the last two characters of the table. */
  lemma StandardVectors()
    ensures Encoding([]) == "" && Encoding([0x66]) == "Zg==" && Encoding([0x66, 0x6f]) == "Zm8="
    ensures Encoding([0x66, 0x6f, 0x6f]) == "Zm9v" && Encoding([0x66, 0x6f, 0x6f, 0x62]) == "Zm9vYg=="
    ensures Encoding([0xfb, 0xff, 0xbf]) == "+/+/"
  {
    assert Encoding([0x62]) == "Yg==";
    assert [0x66, 0x6f, 0x6f, 0x62][3..] == [0x62 as Byte];
    assert Encoding([0x66, 0x6f, 0x6f, 0x62]) == FourDigits(0x66, 0x6f, 0x6f) + Encoding([0x62]);
    assert forall b: seq<Byte> | |b| == 3 :: b[3..] == [];
  }

  /** The encoding of `n` octets has 4 characters for every 3 octets begun. */
  lemma {:induction false} EncodingLength(bs: seq<Byte>)
    ensures |Encoding(bs)| == 4 * ((|bs| + 2) / 3)
  {
    hide Group, Sextet, Digit;
    if |bs| >= 3 {
      EncodingLength(bs[3..]);
    }
  }

  // ---------- The encoder ----------

  // the bit operations of the three places in a group

  function High6(b: Byte): (v: Byte)
    ensures v < 64
  {
    (b & 0xfc) >> 2
  }

  function Low2(b: Byte): (v: Byte)
    ensures v < 64
  {
    (b & 0x03) << 4
  }

  function OrHigh4(v: Byte, b: Byte): (r: Byte)
    requires v < 64
    ensures r < 64
  {
    v | ((b & 0xf0) >> 4)
  }

  function Low4(b: Byte): (v: Byte)
    ensures v < 64
  {
    (b & 0x0f) << 2
  }

  function OrHigh2(v: Byte, b: Byte): (r: Byte)
    requires v < 64
    ensures r < 64
  {
    v | ((b & 0xc0) >> 6)
  }

  function Low6(b: Byte): (v: Byte)
    ensures v < 64
  {
    b & 0x3f
  }

  /** `encode_value`: the character table looked up. */
  function EncodeValue(v: Byte): char
    requires v < 64
  {
    ALPHABET[v as int]
  }

  lemma UpperLetters(i: nat)
    requires i < 26
    ensures UPPER[i] == 'A' + i as char
  {
  }

  lemma LowerLetters(i: nat)
    requires i < 26
    ensures LOWER[i] == 'a' + i as char
  {
  }

  lemma DigitLetters(i: nat)
    requires i < 10
    ensures DIGITS[i] == '0' + i as char
  {
  }

  lemma TableParts(n: nat)
    requires n < 64
    ensures ALPHABET[n] == if n < 26 then UPPER[n] else if n < 52 then LOWER[n - 26]
                           else if n < 62 then DIGITS[n - 52] else SIGNS[n - 62]
  {
  }

  /** The table is the one of the standard. */
  lemma TableIsStandard(v: Byte)
    requires v < 64
    ensures EncodeValue(v) == Digit(v)
  {
    var n := v as nat;
    TableParts(n);
    if n < 26 {
      UpperLetters(n);
    } else if n < 52 {
      LowerLetters(n - 26);
    } else if n < 62 {
      DigitLetters(n - 52);
    }
  }

  /** The octets of the last, incomplete group. */
  function Rest(bs: seq<Byte>): (r: seq<Byte>)
    ensures |r| < 3
  {
    if |bs| < 3 then bs else Rest(bs[3..])
  }

  /** The bits of an incomplete group that no sextet before has used, moved to the top of the next one. */
  function LeftOver(r: seq<Byte>): (v: Byte)
    requires |r| < 3
    ensures v < 64
  {
    if r == [] then 0
    else if |r| == 1 then Sextet(Group(r[0], 0, 0), 1)
    else Sextet(Group(r[0], r[1], 0), 2)
  }

  /** The part of the encoding that is settled once `bs` has been seen, whatever follows. */
  function Settled(bs: seq<Byte>): string {
    if |bs| >= 3 then FourDigits(bs[0], bs[1], bs[2]) + Settled(bs[3..])
    else if |bs| == 2 then TwoDigits(bs[0], bs[1])
    else if |bs| == 1 then OneDigit(bs[0])
    else ""
  }

  /** What closes the encoding off. */
  function Closing(r: seq<Byte>): string
    requires |r| < 3
  {
    if r == [] then "" else if |r| == 1 then [Digit(LeftOver(r)), PAD, PAD] else [Digit(LeftOver(r)), PAD]
  }

  lemma {:induction false} EncodingSplits(bs: seq<Byte>)
    ensures Encoding(bs) == Settled(bs) + Closing(Rest(bs))
  {
    if |bs| >= 3 {
      hide FourDigits, Closing;
      EncodingSplits(bs[3..]);
    } else if bs != [] {
      SextetsByParts(bs[0], if |bs| == 2 then bs[1] else 0);
      hide Digit, Group, Sextet;
    }
  }

  /** The sextets of a group in the encoder's own bit operations, as its octets come in. */
  lemma SextetsByParts(a: Byte, b: Byte)
    ensures Sextet(Group(a, 0, 0), 0) == High6(a) && Sextet(Group(a, 0, 0), 1) == Low2(a)
    ensures Sextet(Group(a, b, 0), 0) == Sextet(Group(a, 0, 0), 0)
    ensures Sextet(Group(a, b, 0), 1) == OrHigh4(Sextet(Group(a, 0, 0), 1), b)
    ensures Sextet(Group(a, b, 0), 2) == Low4(b)
  {
  }

  lemma LastSextetsByParts(a: Byte, b: Byte, c: Byte)
    ensures Sextet(Group(a, b, c), 0) == Sextet(Group(a, b, 0), 0)
    ensures Sextet(Group(a, b, c), 1) == Sextet(Group(a, b, 0), 1)
    ensures Sextet(Group(a, b, c), 2) == OrHigh2(Sextet(Group(a, b, 0), 2), c)
    ensures Sextet(Group(a, b, c), 3) == Low6(c)
  {
  }

  /** What the encoder writes for octet `b` when the octets `r` of its group have come before. */
  function Written(r: seq<Byte>, b: Byte): string
    requires |r| < 3
  {
    var v := LeftOver(r);
    if |r| == 0 then [Digit(High6(b))]
    else if |r| == 1 then [Digit(OrHigh4(v, b))]
    else [Digit(OrHigh2(v, b)), Digit(Low6(b))]
  }

  lemma DigitsGrow(a: Byte, b: Byte, c: Byte)
    ensures OneDigit(a) == Written([], a)
    ensures TwoDigits(a, b) == OneDigit(a) + Written([a], b)
    ensures FourDigits(a, b, c) == TwoDigits(a, b) + Written([a, b], c)
  {
    SextetsByParts(a, b);
    LastSextetsByParts(a, b, c);
    hide Digit, Group, Sextet, High6, Low2, OrHigh4, Low4, OrHigh2, Low6;
  }

  lemma {:induction false} SettledStep(bs: seq<Byte>, b: Byte)
    ensures Rest(bs + [b]) == if |Rest(bs)| == 2 then [] else Rest(bs) + [b]
    ensures Settled(bs + [b]) == Settled(bs) + Written(Rest(bs), b)
    decreases |bs|
  {
    hide OneDigit, TwoDigits, FourDigits, Written;
    if |bs| >= 3 {
      SettledStep(bs[3..], b);
      assert (bs + [b])[3..] == bs[3..] + [b];
    } else {
      DigitsGrow(if |bs| > 0 then bs[0] else b, if |bs| > 1 then bs[1] else b, b);
      assert |bs| == 1 ==> bs == [bs[0]];
      assert |bs| == 2 ==> bs == [bs[0], bs[1]] && (bs + [b])[3..] == [];
    }
  }

  lemma LeftOverStep(r: seq<Byte>, b: Byte)
    requires |r| < 2
    ensures LeftOver(r + [b]) == if r == [] then Low2(b) else Low4(b)
  {
    if r == [] {
      SextetsByParts(b, b);
    } else {
      SextetsByParts(r[0], b);
    }
  }

  /** What the encoder carries from one chunk to the next. */
  class State {
    var tripletIndex: nat
    var lastEncodedValue: Byte
    ghost var consumed: seq<Byte>

    ghost predicate Valid()
      reads this
    {
      Carries(consumed, tripletIndex, lastEncodedValue)
    }

    constructor ()
      ensures Valid() && consumed == []
    {
      tripletIndex, lastEncodedValue, consumed := 0, 0, [];
    }

    predicate Empty()
      reads this
    {
      tripletIndex == 0
    }

    method Clear()
      modifies this
      ensures Valid() && consumed == []
    {
      tripletIndex, lastEncodedValue, consumed := 0, 0, [];
    }
  }

  /** After `bs`, the encoder is at place `index` of a group with `value` left over. */
  ghost predicate Carries(bs: seq<Byte>, index: nat, value: Byte) {
    index == |Rest(bs)| && value == LeftOver(Rest(bs))
  }

  lemma CarriesBounds(bs: seq<Byte>, index: nat, value: Byte)
    requires Carries(bs, index, value)
    ensures index < 3 && (index == 0 ==> value == 0)
    ensures value < 64 && (index == 0 <==> Rest(bs) == [])
    ensures Closing(Rest(bs)) == if index == 0 then ""
                                 else [EncodeValue(value), PAD] + (if index < 2 then [PAD] else [])
  {
    TableIsStandard(value);
    hide Digit, EncodeValue;
  }

  /** One octet: what the encoder writes and carries on. */
  lemma OctetStep(bs: seq<Byte>, index: nat, value: Byte, b: Byte)
    requires Carries(bs, index, value) && index < 3 && value < 64
    ensures index == 0 ==> Settled(bs + [b]) == Settled(bs) + [EncodeValue(High6(b))] &&
                           Carries(bs + [b], 1, Low2(b))
    ensures index == 1 ==> Settled(bs + [b]) == Settled(bs) + [EncodeValue(OrHigh4(value, b))] &&
                           Carries(bs + [b], 2, Low4(b))
    ensures index == 2 ==> Settled(bs + [b]) == Settled(bs) + [EncodeValue(OrHigh2(value, b)), EncodeValue(Low6(b))] &&
                           Carries(bs + [b], 0, 0)
  {
    SettledStep(bs, b);
    if index < 2 {
      LeftOverStep(Rest(bs), b);
    }
    TableIsStandard(High6(b));
    TableIsStandard(Low6(b));
    if index == 1 {
      TableIsStandard(OrHigh4(value, b));
    } else if index == 2 {
      TableIsStandard(OrHigh2(value, b));
    }
    hide Digit, EncodeValue, Group, Sextet, High6, Low2, OrHigh4, Low4, OrHigh2, Low6;
  }

  /** The octets before a chunk and the first `n` of the chunk. */
  ghost function Seen(past: seq<Byte>, input: seq<Byte>, n: nat): seq<Byte>
    requires n <= |input|
  {
    past + input[..n]
  }

  lemma SeenEnds(past: seq<Byte>, input: seq<Byte>)
    ensures Seen(past, input, 0) == past && Seen(past, input, |input|) == past + input
  {
    assert input[..|input|] == input;
  }

  lemma SeenMore(past: seq<Byte>, input: seq<Byte>, n: nat)
    requires n < |input|
    ensures Seen(past, input, n + 1) == Seen(past, input, n) + [input[n]]
  {
  }

  lemma Appended(settled: string, output: string, x: char, y: char)
    ensures settled + output + [x] == settled + (output + [x])
    ensures settled + output + [x, y] == settled + (output + [x] + [y])
  {
  }

  /** The chunked encoder. The loop is entered at the place of the group where the last chunk stopped. */
  method Encode(input: seq<Byte>, rest: State) returns (output: string)
    requires rest.Valid()
    modifies rest
    ensures rest.Valid() && rest.consumed == old(rest.consumed) + input
    ensures Settled(rest.consumed) == Settled(old(rest.consumed)) + output
  {
    hide Settled, Carries, EncodeValue, Seen, High6, Low2, OrHigh4, Low4, OrHigh2, Low6;
    var encodedValue := rest.lastEncodedValue;
    var place := rest.tripletIndex;
    var begin := 0;
    ghost var past := rest.consumed;
    output := "";
    ghost var seen := past;
    SeenEnds(past, input);
    CarriesBounds(past, place, encodedValue);
    while true
      invariant begin <= |input| && place < 3 && encodedValue < 64
      invariant seen == Seen(past, input, begin)
      invariant Carries(seen, place, if place == 0 then 0 else encodedValue)
      invariant Settled(seen) == Settled(past) + output
      decreases |input| - begin
    {
      if place == 0 {
        if begin == |input| {
          rest.tripletIndex, rest.lastEncodedValue := 0, 0;
          break;
        }
        var currentValue := input[begin];
        SeenMore(past, input, begin);
        OctetStep(seen, place, 0, currentValue);
        begin, seen := begin + 1, seen + [currentValue];
        encodedValue := High6(currentValue);
        Appended(Settled(past), output, EncodeValue(encodedValue), PAD);
        output := output + [EncodeValue(encodedValue)];
        encodedValue := Low2(currentValue);
        place := 1;
      }
      if place == 1 {
        if begin == |input| {
          rest.tripletIndex, rest.lastEncodedValue := 1, encodedValue;
          break;
        }
        var currentValue := input[begin];
        SeenMore(past, input, begin);
        OctetStep(seen, place, encodedValue, currentValue);
        begin, seen := begin + 1, seen + [currentValue];
        encodedValue := OrHigh4(encodedValue, currentValue);
        Appended(Settled(past), output, EncodeValue(encodedValue), PAD);
        output := output + [EncodeValue(encodedValue)];
        encodedValue := Low4(currentValue);
        place := 2;
      }
      if begin == |input| {
        rest.tripletIndex, rest.lastEncodedValue := 2, encodedValue;
        break;
      }
      var currentValue := input[begin];
      SeenMore(past, input, begin);
      OctetStep(seen, place, encodedValue, currentValue);
      begin, seen := begin + 1, seen + [currentValue];
      encodedValue := OrHigh2(encodedValue, currentValue);
      Appended(Settled(past), output, EncodeValue(encodedValue), EncodeValue(Low6(currentValue)));
      output := output + [EncodeValue(encodedValue)];
      encodedValue := Low6(currentValue);
      output := output + [EncodeValue(encodedValue)];
      place := 0;
    }
    rest.consumed := seen;
  }

  /** Closes an encoding off and clears the state for the next one. */
  method EncodeRest(rest: State) returns (output: string)
    requires rest.Valid()
    modifies rest
    ensures rest.Valid() && rest.consumed == []
    ensures output == Closing(Rest(old(rest.consumed)))
  {
    output := "";
    CarriesBounds(rest.consumed, rest.tripletIndex, rest.lastEncodedValue);
    if !rest.Empty() {
      output := output + [EncodeValue(rest.lastEncodedValue)];
      output := output + [PAD];
      if rest.tripletIndex < 2 {
        output := output + [PAD];
      }
      rest.Clear();
    }
    rest.consumed := [];
  }

  /** The encoder for an input that is all there. */
  method EncodeAll(input: seq<Byte>) returns (output: string)
    ensures output == Encoding(input)
  {
    var rest := new State();
    output := Encode(input, rest);
    assert [] + input == input;
    EncodingSplits(input);
    var last := EncodeRest(rest);
    output := output + last;
  }

  function Joined(chunks: seq<seq<Byte>>): seq<Byte> {
    if chunks == [] then [] else Joined(chunks[..|chunks| - 1]) + chunks[|chunks| - 1]
  }

  /** However the input is cut into chunks, empty ones included, the text is the standard's encoding. */
  method EncodeChunks(chunks: seq<seq<Byte>>) returns (output: string)
    ensures output == Encoding(Joined(chunks))
  {
    hide Encoding, Settled, Closing;
    var rest := new State();
    output := "";
    assert Settled([]) == "" by {
      SettledOfNothing();
    }
    for i := 0 to |chunks|
      invariant rest.Valid() && fresh(rest) && rest.consumed == Joined(chunks[..i])
      invariant output == Settled(rest.consumed)
    {
      var more := Encode(chunks[i], rest);
      output := output + more;
      assert chunks[..i + 1][..i] == chunks[..i];
    }
    assert chunks[..|chunks|] == chunks;
    EncodingSplits(Joined(chunks));
    var last := EncodeRest(rest);
    output := output + last;
  }

  lemma SettledOfNothing()
    ensures Settled([]) == ""
  {
  }
}
