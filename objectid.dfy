/** Identifiers of stored documents. The store's identifiers are ObjectIds:
    96-bit numbers whose canonical text form is 24 hexadecimal digits. The object
    layer accepts an identifier given as a string and normalises it with
    DecodeId before asking the store about it. */
module ObjectId {
  import opened Errors

  type Id = nat

  /** Number of hexadecimal digits in the text form of an identifier. */
  const HexLength: nat := 24

  function Pow16(n: nat): (r: nat)
    ensures r >= 1
  {
    if n == 0 then 1 else 16 * Pow16(n - 1)
  }

  /** The value of one hexadecimal digit, either case. */
  function DigitValue(c: char): (r: Option<nat>)
    ensures r.Some? ==> r.value < 16
  {
    if '0' <= c <= '9' then Some(c as nat - '0' as nat)
    else if 'a' <= c <= 'f' then Some(c as nat - 'a' as nat + 10)
    else if 'A' <= c <= 'F' then Some(c as nat - 'A' as nat + 10)
    else None
  }

  /** A digit as the canonical (lower-case) text form writes it. */
  predicate IsCanonicalDigit(c: char) {
    '0' <= c <= '9' || 'a' <= c <= 'f'
  }

  /** The number a string of hexadecimal digits denotes, most significant first. */
  function HexValue(s: string): (r: Option<nat>)
    ensures r.Some? ==> r.value < Pow16(|s|)
    ensures r.Some? <==> forall i :: 0 <= i < |s| ==> DigitValue(s[i]).Some?
  {
    if s == [] then Some(0)
    else
      var init := s[..|s| - 1];
      assert forall i :: 0 <= i < |init| ==> init[i] == s[i];
      match (HexValue(init), DigitValue(s[|s| - 1]))
      case (Some(v), Some(d)) => Some(16 * v + d)
      case _ => None
  }

  /** Normalises the text form of an identifier; anything but 24 hexadecimal
      digits is refused with InvalidIdentifier. */
  function DecodeId(s: string): (r: Result<Id>)
    ensures r.Ok? ==> r.value < Pow16(HexLength)
    ensures r.Ok? <==> |s| == HexLength && forall i :: 0 <= i < |s| ==> DigitValue(s[i]).Some?
  {
    if |s| != HexLength then Err(InvalidIdentifier)
    else match HexValue(s)
      case Some(v) => Ok(v)
      case None => Err(InvalidIdentifier)
  }

  function Digit(d: nat): (c: char)
    requires d < 16
    ensures DigitValue(c) == Some(d) && IsCanonicalDigit(c)
  {
    if d < 10 then ('0' as nat + d) as char else ('a' as nat + d - 10) as char
  }

  /** The lowest w hexadecimal digits of n, most significant first. */
  function Hex(n: nat, w: nat): (s: string)
    ensures |s| == w
  {
    if w == 0 then [] else Hex(n / 16, w - 1) + [Digit(n % 16)]
  }

  /** The canonical text form of an identifier. */
  function EncodeId(id: Id): (s: string)
    requires id < Pow16(HexLength)
    ensures |s| == HexLength
  {
    Hex(id, HexLength)
  }

  lemma {:induction false} HexValueOfHex(n: nat, w: nat)
    requires n < Pow16(w)
    ensures HexValue(Hex(n, w)) == Some(n)
  {
    if w > 0 {
      var s := Hex(n, w);
      assert n == 16 * (n / 16) + n % 16;
      HexValueOfHex(n / 16, w - 1);
      assert s[..|s| - 1] == Hex(n / 16, w - 1);
    }
  }

  lemma {:induction false} HexOfHexValue(s: string, v: nat)
    requires HexValue(s) == Some(v)
    requires forall i :: 0 <= i < |s| ==> IsCanonicalDigit(s[i])
    ensures Hex(v, |s|) == s
  {
    if s != [] {
      var init := s[..|s| - 1];
      var c := s[|s| - 1];
      var u := HexValue(init).value;
      var d := DigitValue(c).value;
      assert v == 16 * u + d;
      assert v / 16 == u && v % 16 == d;
      HexOfHexValue(init, u);
      assert Digit(d) == c;
      assert s == init + [c];
    }
  }

  /** Decoding the canonical text form gives the identifier back. */
  lemma DecodeEncode(id: Id)
    requires id < Pow16(HexLength)
    ensures DecodeId(EncodeId(id)) == Ok(id)
  {
    HexValueOfHex(id, HexLength);
  }

  /** A canonical (lower-case) text form that decodes is the encoding of what it decodes to. */
  lemma EncodeDecode(s: string)
    requires DecodeId(s).Ok?
    requires forall i :: 0 <= i < |s| ==> IsCanonicalDigit(s[i])
    ensures EncodeId(DecodeId(s).value) == s
  {
    HexOfHexValue(s, DecodeId(s).value);
  }
}
