/**
 * The random names and wallet addresses of the entity factory
 * (core/service/generator.py, `generate_name` and the `secrets.token_hex(20)`
 * call of `generate_accounts`). The random choices are explicit draws.
 */
module Names {

  /** The number of characters in Python's `string.ascii_letters`. */
  const LETTER_COUNT: int := 52

  predicate IsAsciiLetter(c: char) {
    'a' <= c <= 'z' || 'A' <= c <= 'Z'
  }

  predicate IsUpperLetter(c: char) {
    'A' <= c <= 'Z'
  }

  predicate IsLowerHexDigit(c: char) {
    '0' <= c <= '9' || 'a' <= c <= 'f'
  }

  /** Character `i` of `string.ascii_letters`: the 26 lower-case letters, then the 26 upper-case ones. */
  function AsciiLetter(i: int): (c: char)
    requires 0 <= i < LETTER_COUNT
    ensures IsAsciiLetter(c)
    ensures IsUpperLetter(c) <==> i >= 26
  {
    if i < 26 then ('a' as int + i) as char else ('A' as int + (i - 26)) as char
  }

  /** The position of a letter in `string.ascii_letters`: the inverse of `AsciiLetter`. */
  function LetterIndex(c: char): (i: int)
    requires IsAsciiLetter(c)
    ensures 0 <= i < LETTER_COUNT && AsciiLetter(i) == c
  {
    if 'a' <= c <= 'z' then c as int - 'a' as int else 26 + (c as int - 'A' as int)
  }

  /**
   * The random input of one `generate_name` call: the length chosen from
   * `range(from_k, to_k + 1)` and, for each position, the index of the letter
   * `random.choices` picks from `string.ascii_letters`.
   */
  datatype NameDraw = NameDraw(length: int, picks: seq<int>)

  /** A draw the two random calls can produce for the bounds `fromK`, `toK`. */
  predicate NameDrawFits(d: NameDraw, fromK: int, toK: int) {
    fromK <= d.length <= toK && |d.picks| == d.length &&
    forall i :: 0 <= i < |d.picks| ==> 0 <= d.picks[i] < LETTER_COUNT
  }

  /**
   * `generate_name(from_k, to_k)` (defaults 5 and 5): a string whose length
   * lies in [fromK, toK] and whose characters are all ASCII letters.
   * An empty range (fromK > toK) admits no draw, as `random.choice` raises on it.
   */
  function GenerateName(d: NameDraw, fromK: int := 5, toK: int := 5): (name: string)
    requires NameDrawFits(d, fromK, toK)
    ensures fromK <= |name| <= toK
    ensures forall i :: 0 <= i < |name| ==> IsAsciiLetter(name[i])
  {
    seq(d.length, i requires 0 <= i < d.length && NameDrawFits(d, fromK, toK) => AsciiLetter(d.picks[i]))
  }

  /** The letters of a generated name are exactly the drawn ones: the draw can be read back from the name. */
  lemma GenerateNameReadsBack(d: NameDraw, fromK: int, toK: int)
    requires NameDrawFits(d, fromK, toK)
    ensures var name := GenerateName(d, fromK, toK);
      |name| == d.length && forall i :: 0 <= i < |name| ==> LetterIndex(name[i]) == d.picks[i]
  {
    var name := GenerateName(d, fromK, toK);
    forall i | 0 <= i < |name| ensures LetterIndex(name[i]) == d.picks[i] {
      assert name[i] == AsciiLetter(d.picks[i]);
      LetterIndexInjective(d.picks[i]);
    }
  }

  lemma LetterIndexInjective(i: int)
    requires 0 <= i < LETTER_COUNT
    ensures LetterIndex(AsciiLetter(i)) == i
  {
  }

  /** Python's `str.upper()` restricted to ASCII: lower-case letters become upper-case, all else is kept. */
  function UpperChar(c: char): (u: char)
    ensures 'a' <= c <= 'z' ==> IsUpperLetter(u) && u as int == c as int - 32
    ensures !('a' <= c <= 'z') ==> u == c
  {
    if 'a' <= c <= 'z' then (c as int - 32) as char else c
  }

  function Upper(s: string): (u: string)
    ensures |u| == |s|
    ensures forall i :: 0 <= i < |s| ==> u[i] == UpperChar(s[i])
  {
    seq(|s|, i requires 0 <= i < |s| => UpperChar(s[i]))
  }

  /** Upper-casing a string of ASCII letters yields upper-case letters, and doing it again changes nothing. */
  lemma UpperOfLetters(s: string)
    requires forall i :: 0 <= i < |s| ==> IsAsciiLetter(s[i])
    ensures forall i :: 0 <= i < |s| ==> IsUpperLetter(Upper(s)[i])
    ensures Upper(Upper(s)) == Upper(s)
  {
  }

  /** One draw of 20 random bytes for `secrets.token_hex(20)`. */
  newtype byte = x: int | 0 <= x < 256

  /** A lower-case hexadecimal digit for a value in [0, 16). */
  function HexDigit(v: int): (c: char)
    requires 0 <= v < 16
    ensures IsLowerHexDigit(c)
  {
    if v < 10 then ('0' as int + v) as char else ('a' as int + (v - 10)) as char
  }

  /** The value of a lower-case hexadecimal digit: the inverse of `HexDigit`. */
  function HexValue(c: char): (v: int)
    requires IsLowerHexDigit(c)
    ensures 0 <= v < 16 && HexDigit(v) == c
  {
    if c <= '9' then c as int - '0' as int else 10 + (c as int - 'a' as int)
  }

  /** `secrets.token_hex`: two lower-case hex digits per byte, high nibble first. */
  function TokenHex(bytes: seq<byte>): (hex: string)
    ensures |hex| == 2 * |bytes|
    ensures forall i :: 0 <= i < |hex| ==> IsLowerHexDigit(hex[i])
  {
    if bytes == [] then []
    else
      var b := bytes[0] as int;
      [HexDigit(b / 16), HexDigit(b % 16)] + TokenHex(bytes[1..])
  }

  /** Decodes a string of lower-case hex digit pairs back into bytes. */
  function FromHex(hex: string): (bytes: seq<byte>)
    requires |hex| % 2 == 0
    requires forall i :: 0 <= i < |hex| ==> IsLowerHexDigit(hex[i])
    ensures |bytes| * 2 == |hex|
  {
    if hex == [] then []
    else [(16 * HexValue(hex[0]) + HexValue(hex[1])) as byte] + FromHex(hex[2..])
  }

  /** The address encodes its bytes without loss. */
  lemma {:induction false} FromHexTokenHex(bytes: seq<byte>)
    ensures FromHex(TokenHex(bytes)) == bytes
  {
    if bytes != [] {
      var b := bytes[0] as int;
      var hex := TokenHex(bytes);
      assert hex[0] == HexDigit(b / 16) && hex[1] == HexDigit(b % 16);
      assert HexValue(HexDigit(b / 16)) == b / 16 by { HexDigitInjective(b / 16); }
      assert HexValue(HexDigit(b % 16)) == b % 16 by { HexDigitInjective(b % 16); }
      assert hex[2..] == TokenHex(bytes[1..]);
      FromHexTokenHex(bytes[1..]);
    }
  }

  lemma HexDigitInjective(v: int)
    requires 0 <= v < 16
    ensures HexValue(HexDigit(v)) == v
  {
  }

  /** Different byte draws give different wallet addresses. */
  lemma TokenHexInjective(a: seq<byte>, b: seq<byte>)
    requires TokenHex(a) == TokenHex(b)
    ensures a == b
  {
    FromHexTokenHex(a);
    FromHexTokenHex(b);
  }
}
