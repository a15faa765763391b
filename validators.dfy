/** The path-id check that every `{id}` route applies before its handler runs
    (`validate_document_id` behind the `MongoID` annotation), and the 12-byte ObjectId
    that such an id spells out in hexadecimal. */
module Validators {
  import opened Wrappers

  newtype byte = x: int | 0 <= x < 256

  /** The length of a MongoDB ObjectId in bytes. */
  const ObjectIdBytes := 12

  predicate IsHexDigit(c: char) {
    '0' <= c <= '9' || 'a' <= c <= 'f' || 'A' <= c <= 'F'
  }

  predicate IsLowerHexDigit(c: char) {
    IsHexDigit(c) && !('A' <= c <= 'F')
  }

  /** `ObjectId.is_valid` on a string: exactly 24 hexadecimal characters. */
  predicate IsObjectId(s: string) {
    |s| == 2 * ObjectIdBytes && forall i :: 0 <= i < |s| ==> IsHexDigit(s[i])
  }

  /** The form `str(ObjectId)` prints: 24 lower-case hexadecimal digits. */
  predicate IsCanonicalId(s: string) {
    |s| == 2 * ObjectIdBytes && forall i :: 0 <= i < |s| ==> IsLowerHexDigit(s[i])
  }

  /** An `_id` as the database generates it and prints it. */
  type CanonicalId = s: string | IsCanonicalId(s) witness "000000000000000000000000"

  /** `validate_document_id`: a valid id comes back unchanged, anything else is a 400. */
  function ValidateDocumentId(documentId: string): (r: Result<string>)
    ensures r.Ok? <==> |documentId| == 24 && forall i :: 0 <= i < 24 ==> IsHexDigit(documentId[i])
    ensures r.Ok? ==> r.value == documentId
    ensures r.Err? ==> StatusCode(r.error) == 400
  {
    if IsObjectId(documentId) then Ok(documentId) else Err(BadRequest)
  }

  function HexDigit(n: int): (c: char)
    requires 0 <= n < 16
    ensures IsLowerHexDigit(c)
  {
    if n < 10 then (48 + n) as char else (87 + n) as char
  }

  function DigitValue(c: char): (n: int)
    requires IsHexDigit(c)
    ensures 0 <= n < 16
    ensures IsLowerHexDigit(c) ==> HexDigit(n) == c
  {
    if '0' <= c <= '9' then c as int - 48
    else if 'a' <= c <= 'f' then c as int - 87
    else c as int - 55
  }

  /** `str(ObjectId)`: each byte as two lower-case hexadecimal digits, high nibble first. */
  function Hex(b: seq<byte>): (s: string)
    ensures |s| == 2 * |b|
    ensures forall i :: 0 <= i < |s| ==> IsLowerHexDigit(s[i])
  {
    if b == [] then []
    else [HexDigit(b[0] as int / 16), HexDigit(b[0] as int % 16)] + Hex(b[1..])
  }

  /** `bytes.fromhex` on a string of hexadecimal digit pairs (either case). */
  function FromHex(s: string): (b: seq<byte>)
    requires |s| % 2 == 0 && forall i :: 0 <= i < |s| ==> IsHexDigit(s[i])
    ensures 2 * |b| == |s|
  {
    if s == [] then []
    else [(DigitValue(s[0]) * 16 + DigitValue(s[1])) as byte] + FromHex(s[2..])
  }

  /** Reading the hexadecimal form back gives the same bytes. */
  lemma {:induction false} FromHexOfHex(b: seq<byte>)
    ensures FromHex(Hex(b)) == b
  {
    if b != [] {
      var s := Hex(b);
      var hi, lo := b[0] as int / 16, b[0] as int % 16;
      assert s[0] == HexDigit(hi) && s[1] == HexDigit(lo);
      assert DigitValue(HexDigit(hi)) == hi && DigitValue(HexDigit(lo)) == lo;
      assert s[2..] == Hex(b[1..]);
      FromHexOfHex(b[1..]);
    }
  }

  /** A lower-case hexadecimal string is the form of the bytes it spells. */
  lemma {:induction false} HexOfFromHex(s: string)
    requires |s| % 2 == 0 && forall i :: 0 <= i < |s| ==> IsHexDigit(s[i]) && !('A' <= s[i] <= 'F')
    ensures Hex(FromHex(s)) == s
  {
    if s != [] {
      var d := DigitValue(s[0]) * 16 + DigitValue(s[1]);
      assert d / 16 == DigitValue(s[0]) && d % 16 == DigitValue(s[1]);
      HexOfFromHex(s[2..]);
      assert FromHex(s)[1..] == FromHex(s[2..]);
      assert s == [s[0], s[1]] + s[2..];
    }
  }

  /** Every ObjectId the database generates passes the validator unchanged. */
  lemma GeneratedIdsAreValid(b: seq<byte>)
    requires |b| == ObjectIdBytes
    ensures ValidateDocumentId(Hex(b)) == Ok(Hex(b))
  {
  }

  /** Every lower-case id the validator accepts is the form of exactly one 12-byte ObjectId. */
  lemma {:induction false} ValidIdsNameOneObjectId(s: string)
    requires ValidateDocumentId(s).Ok?
    requires forall i :: 0 <= i < |s| ==> !('A' <= s[i] <= 'F')
    ensures |FromHex(s)| == ObjectIdBytes && Hex(FromHex(s)) == s
    ensures forall b: seq<byte> :: Hex(b) == s ==> b == FromHex(s)
  {
    HexOfFromHex(s);
    forall b: seq<byte> | Hex(b) == s ensures b == FromHex(s) {
      FromHexOfHex(b);
    }
  }

  /** A lower-case id spells bytes whose hexadecimal form is the id itself. */
  lemma CanonicalIsOwnHex(s: string)
    requires IsObjectId(s)
    ensures IsCanonicalId(s) ==> Hex(FromHex(s)) == s
  {
    if IsCanonicalId(s) {
      HexOfFromHex(s);
    }
  }

  /** `str(ObjectId(s))`: the id a query by `ObjectId(s)` matches, in the database's own spelling.
      It names the same 12 bytes as `s`, and a lower-case id is its own key. */
  function ObjectIdKey(s: string): (k: CanonicalId)
    requires IsObjectId(s)
    ensures FromHex(k) == FromHex(s)
    ensures IsCanonicalId(s) ==> k == s
  {
    FromHexOfHex(FromHex(s));
    CanonicalIsOwnHex(s);
    Hex(FromHex(s))
  }

  /** Two spellings find the same document exactly when they spell the same bytes: upper and lower
      case digits are interchangeable. */
  lemma SameObjectId(s: string, t: string)
    requires IsObjectId(s) && IsObjectId(t)
    ensures ObjectIdKey(s) == ObjectIdKey(t) <==> FromHex(s) == FromHex(t)
  {
    assert ObjectIdKey(s) == Hex(FromHex(s));
    assert ObjectIdKey(t) == Hex(FromHex(t));
  }
}
