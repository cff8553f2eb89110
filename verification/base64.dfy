/** Bytes, and the base 64 encodings of RFC 4648 (section 4 padded, section 5 URL-safe and unpadded). */
module Base64 {

  import opened Wrappers

  /** A Go string is a sequence of bytes; a byte is written as the character with that code. */
  type Byte = c: char | c < 256 as char witness 'a'
  type Text = seq<Byte>

  type Sextet = n: int | 0 <= n < 64

  function ByteOf(n: int): Byte
    requires 0 <= n < 256
  {
    n as char
  }

  // ----- sextets -----

  /** Three bytes as four sextets. */
  function Split(x: Byte, y: Byte, z: Byte): (s: seq<Sextet>)
    ensures |s| == 4
  {
    var x, y, z := x as int, y as int, z as int;
    [x / 4, x % 4 * 16 + y / 16, y % 16 * 4 + z / 64, z % 64]
  }

  /** Four sextets as three bytes. */
  function Join(s: seq<Sextet>): (b: Text)
    requires |s| == 4
    ensures |b| == 3
  {
    var w, x, y, z := s[0] as int, s[1] as int, s[2] as int, s[3] as int;
    [ByteOf(w * 4 + x / 16), ByteOf(x % 16 * 16 + y / 4), ByteOf(y % 4 * 64 + z)]
  }

  /** The bits of the input in groups of six, the last group filled up with zeros. */
  function Sextets(b: Text): (s: seq<Sextet>)
    ensures |s| == (4 * |b| + 2) / 3
  {
    if b == [] then []
    else if |b| == 1 then Split(b[0], '\0', '\0')[..2]
    else if |b| == 2 then Split(b[0], b[1], '\0')[..3]
    else Split(b[0], b[1], b[2]) + Sextets(b[3..])
  }

  /** Go's decoder without strict mode: left-over bits are dropped, a single left-over sextet is an error. */
  function FromSextets(s: seq<Sextet>): Option<Text> {
    if s == [] then Some([])
    else if |s| == 1 then None
    else if |s| == 2 then Some(Join(s + [0, 0])[..1])
    else if |s| == 3 then Some(Join(s + [0])[..2])
    else
      match FromSextets(s[4..])
      case None => None
      case Some(rest) => Some(Join(s[..4]) + rest)
  }

  lemma JoinSplit(x: Byte, y: Byte, z: Byte)
    ensures Join(Split(x, y, z)) == [x, y, z]
  {
    var s := Split(x, y, z);
    var p, q := s[1] as int, s[2] as int;
    assert p / 16 == x as int % 4 && p % 16 == y as int / 16;
    assert q / 4 == y as int % 16 && q % 4 == z as int / 64;
  }

  lemma {:induction false} SextetsRoundTrip(b: Text)
    ensures FromSextets(Sextets(b)) == Some(b)
  {
    if |b| == 1 {
      OneByte(b);
    } else if |b| == 2 {
      TwoBytes(b);
    } else if |b| >= 3 {
      hide Join, Split;
      JoinSplit(b[0], b[1], b[2]);
      SextetsRoundTrip(b[3..]);
      assert Sextets(b)[..4] == Split(b[0], b[1], b[2]);
      assert Sextets(b)[4..] == Sextets(b[3..]);
      assert b == [b[0], b[1], b[2]] + b[3..];
    }
  }

  lemma OneByte(b: Text)
    requires |b| == 1
    ensures FromSextets(Sextets(b)) == Some(b)
  {
    JoinSplit(b[0], '\0', '\0');
    var s := Split(b[0], '\0', '\0');
    assert s[..2] + [0, 0] == s;
    hide Join, Split;
    assert [b[0], '\0', '\0'][..1] == b;
  }

  lemma TwoBytes(b: Text)
    requires |b| == 2
    ensures FromSextets(Sextets(b)) == Some(b)
  {
    JoinSplit(b[0], b[1], '\0');
    var s := Split(b[0], b[1], '\0');
    assert s[..3] + [0] == s;
    hide Join, Split;
    assert [b[0], b[1], '\0'][..2] == b;
  }

  // ----- alphabets -----

  datatype Alphabet = Standard | UrlSafe

  function Letter(a: Alphabet, n: Sextet): Byte {
    if n < 26 then ByteOf('A' as int + n)
    else if n < 52 then ByteOf('a' as int + n - 26)
    else if n < 62 then ByteOf('0' as int + n - 52)
    else if n == 62 then (if a.Standard? then '+' else '-')
    else if a.Standard? then '/' else '_'
  }

  function Index(a: Alphabet, c: Byte): Option<Sextet> {
    if 'A' <= c <= 'Z' then Some(c as int - 'A' as int)
    else if 'a' <= c <= 'z' then Some(c as int - 'a' as int + 26)
    else if '0' <= c <= '9' then Some(c as int - '0' as int + 52)
    else if c == (if a.Standard? then '+' else '-') then Some(62)
    else if c == (if a.Standard? then '/' else '_') then Some(63)
    else None
  }

  lemma IndexOfLetter(a: Alphabet, n: Sextet)
    ensures Index(a, Letter(a, n)) == Some(n)
    ensures Letter(a, n) != '=' && Letter(a, n) != '\r' && Letter(a, n) != '\n'
  {
  }

  function Letters(a: Alphabet, s: seq<Sextet>): (t: Text)
    ensures |t| == |s|
    ensures forall i | 0 <= i < |s| :: t[i] == Letter(a, s[i])
  {
    seq(|s|, i requires 0 <= i < |s| => Letter(a, s[i]))
  }

  /** Line breaks are skipped; any other byte outside the alphabet is an error. */
  function Indices(a: Alphabet, t: Text): Option<seq<Sextet>> {
    if t == [] then Some([])
    else
      match Indices(a, t[1..])
      case None => None
      case Some(rest) =>
        if t[0] == '\r' || t[0] == '\n' then Some(rest)
        else
          match Index(a, t[0])
          case None => None
          case Some(n) => Some([n] + rest)
  }

  lemma {:induction false} IndicesOfLetters(a: Alphabet, s: seq<Sextet>)
    ensures Indices(a, Letters(a, s)) == Some(s)
  {
    if s != [] {
      IndexOfLetter(a, s[0]);
      IndicesOfLetters(a, s[1..]);
      assert Letters(a, s)[1..] == Letters(a, s[1..]);
      assert [s[0]] + s[1..] == s;
    }
  }

  lemma {:induction false} StrayByteFails(a: Alphabet, t: Text, k: nat)
    requires k < |t| && t[k] != '\r' && t[k] != '\n' && Index(a, t[k]) == None
    ensures Indices(a, t) == None
  {
    if k > 0 {
      StrayByteFails(a, t[1..], k - 1);
    }
  }

  // ----- section 5, unpadded -----

  function EncodeRawUrl(b: Text): Text {
    Letters(UrlSafe, Sextets(b))
  }

  function DecodeRawUrl(t: Text): Option<Text> {
    match Indices(UrlSafe, t)
    case None => None
    case Some(s) => FromSextets(s)
  }

  lemma RawUrlRoundTrip(b: Text)
    ensures DecodeRawUrl(EncodeRawUrl(b)) == Some(b)
  {
    IndicesOfLetters(UrlSafe, Sextets(b));
    SextetsRoundTrip(b);
  }

  // ----- section 4, padded -----

  function EncodeStd(b: Text): Text {
    Letters(Standard, Sextets(b)) + (if |b| % 3 == 0 then "" else if |b| % 3 == 1 then "==" else "=")
  }
}
