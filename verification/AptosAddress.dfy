/** Aptos addresses: parsing and printing (platforms/aptos/src/address.ts, platforms/aptos/src/types.ts). */
module AptosAddress {
  import opened Prelude

  type Byte = b: int | 0 <= b < 256

  const SEPARATOR := "::"

  // ---------- Hexadecimal text (core/base/src/utils/encoding.ts, `hex`) ----------

  predicate IsHexDigit(c: char) {
    '0' <= c <= '9' || 'a' <= c <= 'f' || 'A' <= c <= 'F'
  }

  predicate HexDigits(s: string) {
    forall i | 0 <= i < |s| :: IsHexDigit(s[i])
  }

  function DigitOf(v: int): (c: char)
    requires 0 <= v < 16
    ensures IsHexDigit(c) && DigitValue(c) == v
    ensures c == '0' <==> v == 0
  {
    if v < 10 then '0' + v as char else 'a' + (v - 10) as char
  }

  function DigitValue(c: char): (v: int)
    requires IsHexDigit(c)
    ensures 0 <= v < 16
  {
    if c <= '9' then c as int - '0' as int
    else if c >= 'a' then c as int - 'a' as int + 10
    else c as int - 'A' as int + 10
  }

  function Encode(bytes: seq<Byte>): (s: string)
    ensures |s| == 2 * |bytes| && HexDigits(s)
  {
    if bytes == [] then "" else [DigitOf(bytes[0] / 16), DigitOf(bytes[0] % 16)] + Encode(bytes[1..])
  }

  /** Decodes pairs of digits, of either case; an odd digit out is refused. */
  function Decode(s: string): Result<seq<Byte>, ()>
    requires HexDigits(s)
  {
    if s == "" then Ok([])
    else if |s| == 1 then Err(())
    else
      var rest := Decode(s[2..]);
      if rest.Err? then rest else Ok([16 * DigitValue(s[0]) + DigitValue(s[1])] + rest.value)
  }

  function StripPrefix(s: string): string {
    if "0x" <= s then s[2..] else s
  }

  /** `hex.valid`: an optional prefix and at least one digit. */
  predicate IsHexText(s: string) {
    StripPrefix(s) != "" && HexDigits(StripPrefix(s))
  }

  // ---------- Parsing ----------

  /** The parts of `s` between the separators, found from the left. */
  function Chunks(s: string): (cs: seq<string>)
    ensures cs != []
  {
    if s == "" then [""]
    else if SEPARATOR <= s then [""] + Chunks(s[2..])
    else
      var rest := Chunks(s[1..]);
      [[s[0]] + rest[0]] + rest[1..]
  }

  predicate WordChar(c: char) {
    '0' <= c <= '9' || 'a' <= c <= 'z' || 'A' <= c <= 'Z' || c == '_'
  }

  predicate Word(s: string) {
    s != "" && forall i | 0 <= i < |s| :: WordChar(s[i])
  }

  /** A module and a name in it, as they are kept and printed. */
  function InModule(m: string, n: string): string {
    m + SEPARATOR + n
  }

  /** `isValidAptosType`, as its pattern reads. */
  ghost predicate IsValidAptosType(s: string) {
    exists h, m, n :: IsHexText(h) && Word(m) && Word(n) && s == h + SEPARATOR + InModule(m, n)
  }

  predicate IsTyped(s: string) {
    var cs := Chunks(s);
    |cs| == 3 && IsHexText(cs[0]) && Word(cs[1]) && Word(cs[2])
  }

  function Zeros(k: nat): (s: string)
    ensures |s| == k && HexDigits(s)
  {
    seq(k, _ => '0')
  }

  function PadStart(s: string, length: nat): string {
    if |s| >= length then s else Zeros(length - |s|) + s
  }

  function EnsureFullAptosAddress(address: string): string {
    if |address| % 2 != 0 || |address| < 66 then "0x" + PadStart(StripPrefix(address), 64) else address
  }

  datatype Address = Address(address: seq<Byte>, mod: Option<string>)
  {
    /** `unwrap` and `toString`: leading zeros are not printed. */
    function Unwrap(): string {
      "0x" + StripZeros(Encode(address)) + (if mod.Some? && mod.value != "" then SEPARATOR + mod.value else "")
    }

    /** `equals` with another address of this kind compares what they print. */
    predicate Equals(other: Address) {
      other.Unwrap() == Unwrap()
    }

    /** The module is absent, or has the form in which it is parsed. */
    ghost predicate Valid() {
      mod.Some? ==> exists m, n :: Word(m) && Word(n) && mod.value == InModule(m, n)
    }
  }

  function StripZeros(s: string): string {
    if s != "" && s[0] == '0' then StripZeros(s[1..]) else s
  }

  /** The bytes of the hexadecimal part, or the exception. */
  function ParseHex(text: string): Result<seq<Byte>, ()> {
    var full := EnsureFullAptosAddress(text);
    if !IsHexText(full) then Err(()) else Decode(StripPrefix(full))
  }

  function Parse(text: string): Result<Address, ()> {
    var cs := Chunks(text);
    var bytes := ParseHex(if IsTyped(text) then cs[0] else text);
    if bytes.Err? then Err(())
    else Ok(Address(bytes.value, if IsTyped(text) then Some(InModule(cs[1], cs[2])) else None))
  }

  datatype AnyAptosAddress =
    | Native(a: Address)
    | Universal(bytes: seq<Byte>)
    | Text(text: string)
    | Bytes(raw: seq<Byte>)

  /** The constructor, field by field, with the text rewritten on the way. */
  method Construct(given: AnyAptosAddress) returns (result: Result<Address, ()>)
    ensures match given
            case Native(a) => result == Ok(a)
            case Universal(bytes) => result == Ok(Address(bytes, None))
            case Bytes(bytes) => result == Ok(Address(bytes, None))
            case Text(text) => result == Parse(text)
    ensures result.Ok? && !given.Native? ==> result.value.Valid()
  {
    match given {
      case Native(a) => return Ok(a);
      case Universal(bytes) => return Ok(Address(bytes, None));
      case Bytes(bytes) => return Ok(Address(bytes, None));
      case Text(text) =>
        var address := text;
        var mod: Option<string> := None;
        if IsTyped(address) {
          var chunks := Chunks(address);
          mod := Some(chunks[1] + SEPARATOR + chunks[2]);
          assert mod.value == InModule(chunks[1], chunks[2]);
          address := chunks[0];
        }
        if |address| % 2 != 0 || |address| < 66 {
          address := if "0x" <= address then address[2..] else address;
          address := "0x" + PadStart(address, 64);
        }
        if !IsHexText(address) { return Err(()); }
        var bytes := Decode(StripPrefix(address));
        if bytes.Err? { return Err(()); }
        return Ok(Address(bytes.value, mod));
    }
  }

  // ---------- Printing and parsing bytes ----------

  lemma {:induction false} DecodeEncode(bytes: seq<Byte>)
    ensures Decode(Encode(bytes)) == Ok(bytes)
    decreases |bytes|
  {
    if bytes != [] {
      DecodeEncode(bytes[1..]);
      DecodePair(bytes[0], Encode(bytes[1..]));
      assert bytes == [bytes[0]] + bytes[1..];
    }
  }

  /** The digits are these characters, and a text of them may have a prefix. */
  lemma HexTextIff(s: string)
    ensures IsHexText(s) <==>
            var digits := if |s| >= 2 && s[0] == '0' && s[1] == 'x' then s[2..] else s;
            digits != "" && forall i | 0 <= i < |digits| :: digits[i] in "0123456789abcdefABCDEF"
  {
    forall c ensures IsHexDigit(c) <==> c in "0123456789abcdefABCDEF" {
      HexDigitIff(c);
    }
    assert "0x" <= s <==> |s| >= 2 && s[0] == '0' && s[1] == 'x';
  }

  lemma HexDigitIff(c: char)
    ensures IsHexDigit(c) <==> c in "0123456789abcdefABCDEF"
  {
    var all := "0123456789abcdefABCDEF";
    if '0' <= c <= '9' {
      assert all[c as int - '0' as int] == c;
    } else if 'a' <= c <= 'f' {
      assert all[c as int - 'a' as int + 10] == c;
    } else if 'A' <= c <= 'F' {
      assert all[c as int - 'A' as int + 16] == c;
    }
  }

  /** The words of a type are made of the letters and digits of ASCII, and underscores. */
  lemma WordIff(s: string)
    ensures Word(s) <==>
            |s| > 0 && forall i | 0 <= i < |s| ::
              var c := s[i] as int; c == 95 || 48 <= c <= 57 || 65 <= c <= 90 || 97 <= c <= 122
  {
    forall i | 0 <= i < |s|
      ensures WordChar(s[i]) <==>
              var c := s[i] as int; c == 95 || 48 <= c <= 57 || 65 <= c <= 90 || 97 <= c <= 122
    {
    }
  }

  /** The same text with its capital digits small. */
  function Small(s: string): string {
    if s == "" then ""
    else
      [if s[0] == 'A' then 'a' else if s[0] == 'B' then 'b' else if s[0] == 'C' then 'c'
       else if s[0] == 'D' then 'd' else if s[0] == 'E' then 'e' else if s[0] == 'F' then 'f' else s[0]] + Small(s[1..])
  }

  lemma {:induction false} SmallDigits(s: string)
    requires HexDigits(s)
    ensures |Small(s)| == |s| && HexDigits(Small(s))
    ensures forall i | 0 <= i < |s| :: DigitValue(Small(s)[i]) == DigitValue(s[i])
    decreases |s|
  {
    if s != "" {
      SmallDigits(s[1..]);
      assert forall i | 0 < i < |s| :: Small(s)[i] == Small(s[1..])[i - 1] && s[i] == s[1..][i - 1];
    }
  }

  lemma {:induction false} SameDigitsDecode(s: string, t: string)
    requires HexDigits(s) && HexDigits(t) && |s| == |t|
    requires forall i | 0 <= i < |s| :: DigitValue(s[i]) == DigitValue(t[i])
    ensures Decode(s) == Decode(t)
    decreases |s|
  {
    if |s| > 1 {
      assert forall i | 0 <= i < |s| - 2 :: s[2..][i] == s[i + 2] && t[2..][i] == t[i + 2];
      SameDigitsDecode(s[2..], t[2..]);
    }
  }

  /** Capital digits are decoded as small ones are. */
  lemma CaseIsIgnored(s: string)
    requires HexDigits(s)
    ensures HexDigits(Small(s)) && Decode(Small(s)) == Decode(s)
  {
    SmallDigits(s);
    SameDigitsDecode(Small(s), s);
  }

  lemma DecodePair(b: Byte, s: string)
    requires HexDigits(s)
    ensures HexDigits([DigitOf(b / 16), DigitOf(b % 16)] + s)
    ensures Decode(s).Ok? ==> Decode([DigitOf(b / 16), DigitOf(b % 16)] + s) == Ok([b] + Decode(s).value)
  {
    var t := [DigitOf(b / 16), DigitOf(b % 16)] + s;
    assert t[2..] == s;
    assert 16 * (b / 16) + b % 16 == b;
  }

  lemma {:induction false} DecodeSize(s: string)
    requires HexDigits(s)
    ensures Decode(s).Ok? <==> |s| % 2 == 0
    ensures Decode(s).Ok? ==> 2 * |Decode(s).value| == |s|
    decreases |s|
  {
    if |s| > 1 {
      DecodeSize(s[2..]);
    }
  }

  /** What is stripped is zeros, and no more than all of the leading ones. */
  lemma {:induction false} Stripped(s: string)
    ensures |StripZeros(s)| <= |s| && s == Zeros(|s| - |StripZeros(s)|) + StripZeros(s)
    ensures |StripZeros(s)| == |s| <==> s == "" || s[0] != '0'
    ensures HexDigits(s) ==> HexDigits(StripZeros(s))
    decreases |s|
  {
    if s != "" && s[0] == '0' {
      Stripped(s[1..]);
      assert s == ['0'] + s[1..];
      assert ['0'] + Zeros(|s[1..]| - |StripZeros(s)|) == Zeros(|s| - |StripZeros(s)|);
    }
  }

  predicate AllZero(bytes: seq<Byte>) {
    forall i | 0 <= i < |bytes| :: bytes[i] == 0
  }

  /** Nothing is printed of the bytes exactly when they are all zero. */
  lemma {:induction false} PrintsNothingIff(bytes: seq<Byte>)
    ensures StripZeros(Encode(bytes)) == "" <==> AllZero(bytes)
    decreases |bytes|
  {
    if bytes != [] {
      var e := Encode(bytes);
      PrintsNothingIff(bytes[1..]);
      assert e[1..][1..] == Encode(bytes[1..]);
      assert bytes[0] == 0 <==> e[0] == '0' && e[1] == '0';
      if bytes[0] == 0 {
        assert StripZeros(e) == StripZeros(Encode(bytes[1..]));
        assert forall i | 0 < i < |bytes| :: bytes[i] == bytes[1..][i - 1];
      }
    }
  }

  /** The addresses whose bytes come back from what is printed of them. */
  predicate Restored(bytes: seq<Byte>) {
    |bytes| == 32 || (|bytes| > 32 && bytes[0] >= 16)
  }

  lemma HexRoundTripIff(bytes: seq<Byte>)
    ensures ParseHex("0x" + StripZeros(Encode(bytes))) == Ok(bytes) <==> Restored(bytes)
  {
    var e, d := Encode(bytes), StripZeros(Encode(bytes));
    Stripped(e);
    assert StripPrefix("0x" + d) == d;
    assert StripPrefix("0x" + PadStart(d, 64)) == PadStart(d, 64);
    DecodeSize(d);
    DecodeEncode(bytes);
    if |d| < 64 {
      DecodeSize(PadStart(d, 64));
      if |bytes| == 32 {
        assert PadStart(d, 64) == e;
      }
    }
    if |bytes| > 0 {
      assert e[0] == '0' <==> bytes[0] < 16;
    }
  }

  /** Filling up a text is the same for all of them: without its prefix, to 64 digits. */
  lemma FullIs(text: string)
    ensures StripPrefix(EnsureFullAptosAddress(text)) == PadStart(StripPrefix(text), 64)
  {
    var filled := PadStart(StripPrefix(text), 64);
    assert StripPrefix("0x" + filled) == filled;
  }

  lemma FilledDigits(digits: string)
    ensures HexDigits(PadStart(digits, 64)) <==> HexDigits(digits)
  {
    var filled := PadStart(digits, 64);
    assert forall i | 0 <= i < |digits| :: filled[i + |filled| - |digits|] == digits[i];
  }

  /**
   * Which texts are parsed, and to what, for all of them: those of hexadecimal digits after an optional prefix, if they
   * are at most 64, or even in number. Fewer than 64 are filled up with zeros in front, even none at all.
   */
  lemma ParseHexIff(text: string)
    ensures var digits := if |text| >= 2 && text[0] == '0' && text[1] == 'x' then text[2..] else text;
            var filled := if |digits| < 64 then seq(64 - |digits|, _ => '0') + digits else digits;
            && (ParseHex(text).Ok? <==> HexDigits(digits) && (|digits| <= 64 || |digits| % 2 == 0))
            && (ParseHex(text).Ok? ==>
                  HexDigits(filled) && ParseHex(text) == Decode(filled) && 2 * |ParseHex(text).value| == |filled|)
  {
    var digits := StripPrefix(text);
    assert "0x" <= text <==> |text| >= 2 && text[0] == '0' && text[1] == 'x';
    FullIs(text);
    FilledDigits(digits);
    if HexDigits(digits) {
      DecodeSize(PadStart(digits, 64));
    }
  }

  /** So an empty text is the zero address. */
  lemma NothingIsZero()
    ensures ParseHex("").Ok? && |ParseHex("").value| == 32 && AllZero(ParseHex("").value)
  {
    ParseHexIff("");
    var zeros := seq(64, _ => '0');
    assert zeros + "" == zeros;
    DecodeZeros(32);
    assert zeros == Zeros(64);
  }

  lemma {:induction false} DecodeZeros(n: nat)
    ensures Decode(Zeros(2 * n)).Ok? && |Decode(Zeros(2 * n)).value| == n && AllZero(Decode(Zeros(2 * n)).value)
    decreases n
  {
    if n > 0 {
      DecodeZeros(n - 1);
      assert Zeros(2 * n)[2..] == Zeros(2 * (n - 1));
    }
  }

  // ---------- Printing and parsing types ----------

  predicate NoColon(s: string) {
    ':' !in s
  }

  lemma {:induction false} ChunksOf(s: string, rest: string)
    requires NoColon(s)
    ensures Chunks(s) == [s]
    ensures Chunks(s + (SEPARATOR + rest)) == [s] + Chunks(rest)
    decreases |s|
  {
    var t := s + (SEPARATOR + rest);
    if s == "" {
      assert t == SEPARATOR + rest;
      assert t[2..] == rest;
    } else {
      ChunksOf(s[1..], rest);
      assert t[1..] == s[1..] + (SEPARATOR + rest);
      assert s == [s[0]] + s[1..];
    }
  }

  lemma WordHasNoColon(s: string)
    requires Word(s) || HexDigits(s) || IsHexText(s)
    ensures NoColon(s)
  {
    if IsHexText(s) && "0x" <= s {
      assert s == "0x" + s[2..];
      assert forall i | 2 <= i < |s| :: s[i] == s[2..][i - 2];
    }
  }

  lemma ChunksOfType(h: string, m: string, n: string)
    requires NoColon(h) && Word(m) && Word(n)
    ensures Chunks(h + SEPARATOR + InModule(m, n)) == [h, m, n]
  {
    WordHasNoColon(m);
    WordHasNoColon(n);
    ChunksOf(n, "");
    ChunksOf(m, n);
    assert m + (SEPARATOR + n) == InModule(m, n);
    ChunksOf(h, InModule(m, n));
    assert h + (SEPARATOR + InModule(m, n)) == h + SEPARATOR + InModule(m, n);
  }

  function Joined(cs: seq<string>): string {
    if cs == [] then "" else if |cs| == 1 then cs[0] else cs[0] + (SEPARATOR + Joined(cs[1..]))
  }

  lemma {:induction false} ChunksJoin(s: string)
    ensures Joined(Chunks(s)) == s
    decreases |s|
  {
    if s != "" {
      if SEPARATOR <= s {
        ChunksJoin(s[2..]);
        assert ([""] + Chunks(s[2..]))[1..] == Chunks(s[2..]);
        assert "" + (SEPARATOR + s[2..]) == s;
      } else {
        ChunksJoin(s[1..]);
        JoinedLonger(s[0], Chunks(s[1..]));
        assert s == [s[0]] + s[1..];
      }
    }
  }

  lemma JoinedLonger(c: char, cs: seq<string>)
    requires cs != []
    ensures Joined([[c] + cs[0]] + cs[1..]) == [c] + Joined(cs)
  {
    var longer := [[c] + cs[0]] + cs[1..];
    assert longer[1..] == cs[1..];
    if |cs| > 1 {
      assert ([c] + cs[0]) + (SEPARATOR + Joined(cs[1..])) == [c] + (cs[0] + (SEPARATOR + Joined(cs[1..])));
    }
  }

  lemma JoinedThree(h: string, m: string, n: string)
    ensures Joined([h, m, n]) == h + SEPARATOR + InModule(m, n)
  {
    assert [h, m, n][1..] == [m, n] && [m, n][1..] == [n];
    assert Joined([m, n]) == m + (SEPARATOR + n) == InModule(m, n);
    assert h + (SEPARATOR + InModule(m, n)) == h + SEPARATOR + InModule(m, n);
  }

  /** The test on the chunks is the test of the pattern. */
  lemma TypedIffValid(s: string)
    ensures IsTyped(s) <==> IsValidAptosType(s)
  {
    if IsTyped(s) {
      var cs := Chunks(s);
      ChunksJoin(s);
      JoinedThree(cs[0], cs[1], cs[2]);
      assert cs == [cs[0], cs[1], cs[2]];
    }
    if IsValidAptosType(s) {
      var h, m, n :| IsHexText(h) && Word(m) && Word(n) && s == h + SEPARATOR + InModule(m, n);
      WordHasNoColon(h);
      ChunksOfType(h, m, n);
    }
  }

  // ---------- The round trip ----------

  lemma ParseTyped(h: string, m: string, n: string)
    requires IsHexText(h) && Word(m) && Word(n)
    ensures Parse(h + SEPARATOR + InModule(m, n)) ==
              match ParseHex(h)
              case Ok(bytes) => Ok(Address(bytes, Some(InModule(m, n))))
              case Err(_) => Err(())
  {
    WordHasNoColon(h);
    ChunksOfType(h, m, n);
  }

  lemma UnwrapTyped(bytes: seq<Byte>, m: string, n: string)
    ensures Address(bytes, Some(InModule(m, n))).Unwrap() ==
            "0x" + StripZeros(Encode(bytes)) + SEPARATOR + InModule(m, n)
  {
  }

  /** Without a module, printing and parsing give the address back exactly when its bytes are restored. */
  lemma BareRoundTripIff(a: Address)
    requires a.mod.None?
    ensures Parse(a.Unwrap()) == Ok(a) <==> Restored(a.address)
  {
    var d := StripZeros(Encode(a.address));
    Stripped(Encode(a.address));
    assert a.Unwrap() == "0x" + d;
    WordHasNoColon(d);
    ChunksOf("0x" + d, "");
    HexRoundTripIff(a.address);
  }

  /** With a module and all bytes zero, no digit is printed, and what is printed does not parse. */
  lemma ZeroTypeFails(m: string, n: string)
    requires Word(m) && Word(n)
    ensures Parse("0x" + SEPARATOR + InModule(m, n)).Err?
  {
    var s := "0x" + SEPARATOR + InModule(m, n);
    ChunksOfType("0x", m, n);
    var full := EnsureFullAptosAddress(s);
    assert !IsTyped(s);
    assert StripPrefix(s) == s[2..] && s[2] == ':' && s[2..][0] == ':';
    var digits := StripPrefix(full);
    if |s| % 2 != 0 || |s| < 66 {
      assert digits == PadStart(s[2..], 64);
      assert digits[|digits| - |s[2..]|] == ':';
    }
    assert !HexDigits(digits);
  }

  /**
   * Printing and parsing give an address back exactly when its bytes are restored and, under a module, not all zero.
   */
  lemma RoundTripIff(a: Address)
    requires a.Valid()
    ensures Parse(a.Unwrap()) == Ok(a) <==> Restored(a.address) && (a.mod.Some? ==> !AllZero(a.address))
  {
    if a.mod.None? {
      BareRoundTripIff(a);
    } else {
      var m, n :| Word(m) && Word(n) && a.mod.value == InModule(m, n);
      var d := StripZeros(Encode(a.address));
      PrintsNothingIff(a.address);
      UnwrapTyped(a.address, m, n);
      if d == "" {
        assert "0x" + d == "0x";
        ZeroTypeFails(m, n);
      } else {
        Stripped(Encode(a.address));
        assert StripPrefix("0x" + d) == d;
        ParseTyped("0x" + d, m, n);
        HexRoundTripIff(a.address);
      }
    }
  }

  /** For the 32 bytes of an Aptos address: always without a module, and under one unless the address is zero. */
  lemma AptosRoundTrip(a: Address)
    requires a.Valid() && |a.address| == 32
    ensures Parse(a.Unwrap()) == Ok(a) <==> a.mod.None? || !AllZero(a.address)
  {
    RoundTripIff(a);
  }

  lemma ZeroPrintsNothing(zeros: seq<Byte>)
    requires |zeros| == 32 && AllZero(zeros)
    ensures ParseHex("0x0") == Ok(zeros) && StripZeros(Encode(zeros)) == ""
  {
    PrintsNothingIff(zeros);
    Stripped(Encode(zeros));
    assert StripPrefix("0x0") == "0";
    assert PadStart("0", 64) == Encode(zeros);
    assert StripPrefix("0x" + PadStart("0", 64)) == PadStart("0", 64);
    DecodeEncode(zeros);
  }

  /** The exception is real: the zero address under a module can be made, and what it prints cannot be parsed. */
  lemma ZeroTypeIsConstructible(m: string, n: string, zeros: seq<Byte>)
    requires Word(m) && Word(n) && |zeros| == 32 && AllZero(zeros)
    ensures Parse("0x0" + SEPARATOR + InModule(m, n)) == Ok(Address(zeros, Some(InModule(m, n))))
    ensures Parse(Address(zeros, Some(InModule(m, n))).Unwrap()).Err?
  {
    ZeroPrintsNothing(zeros);
    assert IsHexText("0x0") by {
      assert StripPrefix("0x0") == "0";
    }
    ParseTyped("0x0", m, n);
    UnwrapTyped(zeros, m, n);
    assert "0x" + "" == "0x";
    ZeroTypeFails(m, n);
  }

  // ---------- Equality ----------

  lemma SameTextSameParts(d1: string, d2: string, rest1: string, rest2: string)
    requires NoColon(d1) && NoColon(d2) && d1 + rest1 == d2 + rest2
    requires (rest1 == "" || rest1[0] == ':') && (rest2 == "" || rest2[0] == ':')
    ensures d1 == d2 && rest1 == rest2
  {
    var s := d1 + rest1;
    assert s == d2 + rest2;
    assert s[..|d1|] == d1 && s[|d1|..] == rest1;
    assert s[..|d2|] == d2 && s[|d2|..] == rest2;
  }

  lemma SamePrintSameBytes(a: seq<Byte>, b: seq<Byte>)
    requires |a| == |b| && StripZeros(Encode(a)) == StripZeros(Encode(b))
    ensures a == b
  {
    Stripped(Encode(a));
    Stripped(Encode(b));
    DecodeEncode(a);
    DecodeEncode(b);
  }

  /** The bytes from the first that is not zero on. */
  function Significant(bytes: seq<Byte>): (r: seq<Byte>)
    ensures r == [] || r[0] != 0
  {
    if bytes != [] && bytes[0] == 0 then Significant(bytes[1..]) else bytes
  }

  /** Leading zero bytes are not printed. */
  lemma {:induction false} PrintsSignificant(bytes: seq<Byte>)
    ensures StripZeros(Encode(bytes)) == StripZeros(Encode(Significant(bytes)))
    decreases |bytes|
  {
    if bytes != [] && bytes[0] == 0 {
      var e := Encode(bytes);
      PrintsSignificant(bytes[1..]);
      assert e[0] == '0' && e[1..][0] == '0' && e[1..][1..] == Encode(bytes[1..]);
    }
  }

  /** One digit at most is stripped from bytes that begin with one that is not zero. */
  lemma SignificantSize(bytes: seq<Byte>)
    requires bytes == [] || bytes[0] != 0
    ensures |StripZeros(Encode(bytes))| == 2 * |bytes| || |StripZeros(Encode(bytes))| == 2 * |bytes| - 1
  {
    if bytes != [] {
      var e := Encode(bytes);
      assert e[0] == '0' ==> e[1] != '0' && StripZeros(e) == e[1..];
    }
  }

  lemma SamePrintIff(a: seq<Byte>, b: seq<Byte>)
    ensures StripZeros(Encode(a)) == StripZeros(Encode(b)) <==> Significant(a) == Significant(b)
  {
    PrintsSignificant(a);
    PrintsSignificant(b);
    SignificantSize(Significant(a));
    SignificantSize(Significant(b));
    if StripZeros(Encode(a)) == StripZeros(Encode(b)) {
      SamePrintSameBytes(Significant(a), Significant(b));
    }
  }

  /**
   * Addresses print the same exactly when their modules are the same and their bytes differ in leading zeros at most.
   */
  lemma EqualsIff(a: Address, b: Address)
    requires a.Valid() && b.Valid()
    ensures a.Equals(b) <==> a.mod == b.mod && Significant(a.address) == Significant(b.address)
  {
    SamePrintIff(a.address, b.address);
    if a.Equals(b) {
      SamePrintSameParts(a, b);
    }
  }

  lemma SamePrintSameParts(a: Address, b: Address)
    requires a.Valid() && b.Valid() && a.Equals(b)
    ensures a.mod == b.mod && StripZeros(Encode(a.address)) == StripZeros(Encode(b.address))
  {
    var d1, d2 := StripZeros(Encode(a.address)), StripZeros(Encode(b.address));
    var rest1 := if a.mod.Some? then SEPARATOR + a.mod.value else "";
    var rest2 := if b.mod.Some? then SEPARATOR + b.mod.value else "";
    Stripped(Encode(a.address));
    Stripped(Encode(b.address));
    WordHasNoColon(d1);
    WordHasNoColon(d2);
    assert a.Unwrap() == "0x" + d1 + rest1 && b.Unwrap() == "0x" + d2 + rest2;
    SameTextSameParts("0x" + d1, "0x" + d2, rest1, rest2);
    assert ("0x" + d1)[2..] == d1 && ("0x" + d2)[2..] == d2;
    assert rest1 != "" ==> rest1[2..] == a.mod.value;
    assert rest2 != "" ==> rest2[2..] == b.mod.value;
  }

  /** So addresses of one length, as all Aptos addresses are, are equal exactly when bytes and module are. */
  lemma SameLengthEqualsIff(a: Address, b: Address)
    requires a.Valid() && b.Valid() && |a.address| == |b.address|
    ensures a.Equals(b) <==> a == b
  {
    EqualsIff(a, b);
    if a.Equals(b) {
      SamePrintIff(a.address, b.address);
      SamePrintSameBytes(a.address, b.address);
    }
  }
}
