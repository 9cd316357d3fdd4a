/** The part of BSON's ObjectId that `isValidObjectId` depends on: building an id
    from a string and rendering it back as 24 lower-case hexadecimal digits. */
module ObjectIds {
  import opened Outcomes

  newtype byte = x: int | 0 <= x < 256

  predicate IsHexChar(c: char) {
    ('0' <= c <= '9') || ('a' <= c <= 'f') || ('A' <= c <= 'F')
  }

  predicate IsLowerHexChar(c: char) {
    ('0' <= c <= '9') || ('a' <= c <= 'f')
  }

  predicate IsHexString(s: string) {
    forall k :: 0 <= k < |s| ==> IsHexChar(s[k])
  }

  function HexValue(c: char): (v: nat)
    requires IsHexChar(c)
    ensures v < 16
  {
    if '0' <= c <= '9' then c as int - '0' as int
    else if 'a' <= c <= 'f' then c as int - 'a' as int + 10
    else c as int - 'A' as int + 10
  }

  /** The lower-case hexadecimal digit of a value below sixteen. */
  function HexDigit(v: nat): (c: char)
    requires v < 16
    ensures IsLowerHexChar(c)
    ensures HexValue(c) == v
  {
    "0123456789abcdef"[v]
  }

  /** A hexadecimal digit written in lower case. */
  function LowerHex(c: char): (d: char)
    requires IsHexChar(c)
    ensures IsLowerHexChar(d)
    ensures IsLowerHexChar(c) ==> d == c
  {
    HexDigit(HexValue(c))
  }

  /** The bytes spelled by an even-length string of hexadecimal digits, two digits a byte. */
  function FromHex(s: string): (b: seq<byte>)
    requires |s| % 2 == 0 && IsHexString(s)
    ensures |b| == |s| / 2
  {
    if |s| == 0 then []
    else [(16 * HexValue(s[0]) + HexValue(s[1])) as byte] + FromHex(s[2..])
  }

  /** `ObjectId.prototype.toHexString`: two lower-case digits a byte. */
  function ToHex(b: seq<byte>): (s: string)
    ensures |s| == 2 * |b|
    ensures forall k :: 0 <= k < |s| ==> IsLowerHexChar(s[k])
  {
    if |b| == 0 then []
    else [HexDigit(b[0] as int / 16), HexDigit(b[0] as int % 16)] + ToHex(b[1..])
  }

  /** Rendering bytes and reading them back gives the same bytes. */
  lemma {:induction false} FromHexOfToHex(b: seq<byte>)
    ensures FromHex(ToHex(b)) == b
  {
    if |b| > 0 {
      var s := ToHex(b);
      assert s[2..] == ToHex(b[1..]);
      FromHexOfToHex(b[1..]);
    }
  }

  /** The two digits of a byte split back into the values they were built from. */
  lemma SplitByte(hi: nat, lo: nat)
    requires hi < 16 && lo < 16
    ensures (16 * hi + lo) / 16 == hi && (16 * hi + lo) % 16 == lo
  {
  }

  /** Reading hexadecimal digits and rendering them back gives the same digits in lower case. */
  lemma {:induction false} ToHexOfFromHex(s: string)
    requires |s| % 2 == 0 && IsHexString(s)
    ensures |ToHex(FromHex(s))| == |s|
    ensures forall k :: 0 <= k < |s| ==> ToHex(FromHex(s))[k] == LowerHex(s[k])
  {
    if |s| > 0 {
      var hi, lo := HexValue(s[0]), HexValue(s[1]);
      SplitByte(hi, lo);
      var b := FromHex(s);
      var tail := s[2..];
      assert b == [(16 * hi + lo) as byte] + FromHex(tail);
      assert b[1..] == FromHex(tail);
      ToHexOfFromHex(tail);
      var r := ToHex(b);
      assert r == [HexDigit(hi), HexDigit(lo)] + ToHex(FromHex(tail));
      forall k | 0 <= k < |s|
        ensures r[k] == LowerHex(s[k])
      {
        if k >= 2 {
          assert r[k] == ToHex(FromHex(tail))[k - 2];
          assert s[k] == tail[k - 2];
        }
      }
    }
  }

  /** The bytes of a twelve-character string whose characters are all ASCII; a
      string with another character encodes to more than twelve bytes, which BSON
      refuses with an exception. */
  function FromAscii(s: string): (r: Option<seq<byte>>)
    ensures r.Some? <==> forall k :: 0 <= k < |s| ==> s[k] as int < 128
    ensures r.Some? ==> |r.value| == |s| && forall k :: 0 <= k < |s| ==> r.value[k] as int == s[k] as int
  {
    if |s| == 0 then Some([])
    else if s[0] as int < 128 then
      match FromAscii(s[1..])
      case Some(rest) => Some([s[0] as int as byte] + rest)
      case None => None
    else None
  }

  /** `ObjectId.isValid` on a string: twelve characters, or twenty-four hexadecimal digits. */
  predicate BsonIsValid(s: string) {
    |s| == 12 || (|s| == 24 && IsHexString(s))
  }

  /** `new ObjectId(s)` on a string `ObjectId.isValid` accepts; `None` stands for the
      exception it throws on a non-ASCII twelve-character string. */
  function FromString(s: string): (r: Option<seq<byte>>)
    requires BsonIsValid(s)
    ensures r.Some? ==> |r.value| == 12
  {
    if |s| == 24 then Some(FromHex(s)) else FromAscii(s)
  }
}
