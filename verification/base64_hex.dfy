/** b64tohex: base 64 to lower-case hexadecimal in one pass, with a carry of two or four bits. */
module Base64Hex {

  import opened Arithmetic
  import opened Base64

  type Nibble = n: int | 0 <= n < 16

  /** int2char, for the digits a nibble can reach. */
  function HexChar(n: Nibble): Byte {
    if n < 10 then ByteOf('0' as int + n) else ByteOf('a' as int + n - 10)
  }

  function HexChars(ns: seq<Nibble>): (t: Text)
    ensures |t| == |ns|
  {
    seq(|ns|, i requires 0 <= i < |ns| => HexChar(ns[i]))
  }

  /** The two halves of every byte. */
  function Nibbles(b: Text): seq<Nibble> {
    if b == [] then [] else Halves(b[0]) + Nibbles(b[1..])
  }

  function Halves(c: Byte): (r: seq<Nibble>)
    ensures |r| == 2
  {
    [c as int / 16, c as int % 16]
  }

  /** Section 8 of RFC 4648, in lower case. */
  function HexLower(b: Text): Text {
    HexChars(Nibbles(b))
  }

  const HEX_DIGITS: string := "0123456789abcdef"

  /** Two digits stand for each byte, the higher half first. */
  lemma DigitsOfByte(b: Text, i: nat)
    requires i < |b|
    ensures |HexLower(b)| == 2 * |b|
    ensures HexLower(b)[2 * i] == HEX_DIGITS[b[i] as int / 16] && HexLower(b)[2 * i + 1] == HEX_DIGITS[b[i] as int % 16]
  {
    hide Nibbles, HexChar;
    NibblesAt(b, i);
    HexCharIs(b[i] as int / 16);
    HexCharIs(b[i] as int % 16);
  }

  lemma HexCharIs(n: Nibble)
    ensures HexChar(n) == HEX_DIGITS[n]
  {
  }

  lemma {:induction false} NibblesAt(b: Text, i: nat)
    requires i < |b|
    ensures |Nibbles(b)| == 2 * |b| && Nibbles(b)[2 * i] == b[i] as int / 16 && Nibbles(b)[2 * i + 1] == b[i] as int % 16
  {
    if i > 0 {
      NibblesAt(b[1..], i - 1);
    } else if |b| > 1 {
      NibblesAt(b[1..], 0);
    } else {
      assert Nibbles(b[1..]) == [];
    }
  }

  /** The text has only letters and padding. Any other character makes the program index out of range. */
  predicate Readable(a: Text) {
    forall i | 0 <= i < |a| :: a[i] == '=' || Index(Standard, a[i]).Some?
  }

  /** The letters of the first `n` characters. */
  function Letters64(a: Text, n: nat): seq<Sextet>
    requires n <= |a| && Readable(a)
  {
    if n == 0 then []
    else
      var front := Letters64(a, n - 1);
      if a[n - 1] == '=' then front else front + [Index(Standard, a[n - 1]).value]
  }

  /** The halves one more sextet `v` completes, when `e` sextets of the group came before and `c` is left of them. */
  function Completes(e: int, c: int, v: Sextet): seq<Nibble>
    requires 0 <= e < 4 && 0 <= c < (if e == 2 then 16 else 4)
  {
    var v := v as int;
    match e
    case 0 => [v / 4]
    case 1 => [c * 4 + v / 16]
    case 2 => [c, v / 4]
    case _ => [c * 4 + v / 16, v % 16]
  }

  /** The bits of the last sextet that no half has used yet. */
  function Pending(s: seq<Sextet>, n: nat): (c: int)
    requires n <= |s|
    ensures 0 <= c < (if n % 4 == 2 then 16 else 4)
  {
    if n % 4 == 0 then 0 else if n % 4 == 2 then s[n - 1] as int % 16 else s[n - 1] as int % 4
  }

  /** The halves that are complete after the first `n` sextets. */
  function Complete(s: seq<Sextet>, n: nat): seq<Nibble>
    requires n <= |s|
  {
    if n == 0 then [] else Complete(s, n - 1) + Completes((n - 1) % 4, Pending(s, n - 1), s[n - 1])
  }

  lemma HexAppend(a: seq<Nibble>, b: seq<Nibble>)
    ensures HexChars(a + b) == HexChars(a) + HexChars(b)
  {
  }

  lemma {:induction false} CompletePrefix(s: seq<Sextet>, t: seq<Sextet>, n: nat)
    requires n <= |s| && n <= |t| && forall i | 0 <= i < n :: s[i] == t[i]
    ensures Complete(s, n) == Complete(t, n) && Pending(s, n) == Pending(t, n)
  {
    hide Completes;
    if n > 0 {
      CompletePrefix(s, t, n - 1);
    }
  }

  lemma PendingStep(s: seq<Sextet>, v: Sextet)
    ensures var n := |s|;
            n % 4 != 3 ==> Pending(s + [v], n + 1) == (if n % 4 == 1 then v as int % 16 else v as int % 4)
  {
  }

  lemma StepChars(s: seq<Sextet>, v: Sextet)
    ensures var n := |s|;
            HexChars(Complete(s + [v], n + 1)) == HexChars(Complete(s, n)) + HexChars(Completes(n % 4, Pending(s, n), v))
  {
    hide Completes, Pending, HexChars;
    CompletePrefix(s + [v], s, |s|);
    HexAppend(Complete(s, |s|), Completes(|s| % 4, Pending(s, |s|), v));
  }

  method B64ToHex(a: Text) returns (d: Text)
    requires Readable(a)
    ensures var s := Letters64(a, |a|);
            var n := |s|;
            d == HexChars(Complete(s, n)) + (if n % 4 == 1 then [HexChar(Pending(s, n) * 4)] else [])
  {
    hide Complete, Completes, Pending, HexChars, HexChar, Index;
    d := [];
    var e, c := 0, 0;
    ghost var s: seq<Sextet> := [];
    NothingComplete();
    var i := 0;
    while i < |a|
      invariant i <= |a| && s == Letters64(a, i)
      invariant e == |s| % 4 && (e != 0 ==> c == Pending(s, |s|))
      invariant d == HexChars(Complete(s, |s|))
    {
      var m := a[i];
      if m != '=' {
        var v: int := Index(Standard, m).value;
        StepChars(s, v);
        PendingStep(s, v);
        Emitted(e, Pending(s, |s|), v);
        if e == 0 {
          e := 1;
          d := d + [HexChar(v / 4)];
          c := v % 4;
        } else if e == 1 {
          e := 2;
          d := d + [HexChar(c * 4 + v / 16)];
          c := v % 16;
        } else if e == 2 {
          e := 3;
          d := d + [HexChar(c), HexChar(v / 4)];
          c := v % 4;
        } else {
          e := 0;
          d := d + [HexChar(c * 4 + v / 16), HexChar(v % 16)];
        }
        s := s + [v];
      }
      i := i + 1;
    }
    if e == 1 {
      d := d + [HexChar(c * 4)];
    }
  }

  lemma NothingComplete()
    ensures HexChars(Complete([], 0)) == []
  {
  }

  /** The digits of the halves that one sextet completes. */
  lemma Emitted(e: int, c: int, v: Sextet)
    requires 0 <= e < 4 && 0 <= c < (if e == 2 then 16 else 4)
    ensures HexChars(Completes(e, c, v)) ==
              if e == 0 then [HexChar(v as int / 4)]
              else if e == 1 then [HexChar(c * 4 + v as int / 16)]
              else if e == 2 then [HexChar(c), HexChar(v as int / 4)]
              else [HexChar(c * 4 + v as int / 16), HexChar(v as int % 16)]
  {
    hide HexChar;
  }

  // ----- the whole conversion -----

  /** A group of four sextets yields six halves and leaves no carry, so the groups are independent. */
  lemma {:induction false} CompleteConcat(s: seq<Sextet>, t: seq<Sextet>, n: nat)
    requires |s| % 4 == 0 && n <= |t|
    ensures Complete(s + t, |s| + n) == Complete(s, |s|) + Complete(t, n)
  {
    hide Completes, Pending, Complete;
    CompleteNext(t, n);
    if n == 0 {
      CompletePrefix(s + t, s, |s|);
    } else {
      CompleteConcat(s, t, n - 1);
      CompleteNext(s + t, |s| + n);
      assert (s + t)[|s| + n - 1] == t[n - 1];
      ModShift(|s|, n - 1);
      PendingShift(s, t, n - 1);
    }
  }

  lemma CompleteNext(s: seq<Sextet>, n: nat)
    requires n <= |s|
    ensures Complete(s, n) == if n == 0 then [] else Complete(s, n - 1) + Completes((n - 1) % 4, Pending(s, n - 1), s[n - 1])
  {
    hide Completes, Pending;
  }

  lemma ModShift(a: nat, n: nat)
    requires a % 4 == 0
    ensures (a + n) % 4 == n % 4
  {
    DivUnique(a + n, 4, a / 4 + n / 4, n % 4);
  }

  lemma PendingShift(s: seq<Sextet>, t: seq<Sextet>, n: nat)
    requires |s| % 4 == 0 && n <= |t|
    ensures Pending(s + t, |s| + n) == Pending(t, n)
  {
    ModShift(|s|, n);
    if n > 0 {
      assert (s + t)[|s| + n - 1] == t[n - 1];
    }
  }

  lemma SixHalves(i: int, j: int, k: int)
    requires 0 <= i < 256 && 0 <= j < 256 && 0 <= k < 256
    ensures var p, q := i % 4 * 16 + j / 16, j % 16 * 4 + k / 64;
            && i / 4 / 4 == i / 16
            && i / 4 % 4 * 4 + p / 16 == i % 16
            && p % 16 == j / 16
            && q / 4 == j % 16
            && q % 4 * 4 + k % 64 / 16 == k / 16
            && k % 64 % 16 == k % 16
  {
    var p, q := i % 4 * 16 + j / 16, j % 16 * 4 + k / 64;
    assert p / 16 == i % 4 && p % 16 == j / 16;
    assert q / 4 == j % 16 && q % 4 == k / 64;
  }

  /** Two, three and four sextets of a group complete the halves of one, two and three bytes. */
  lemma GroupHalves(x: Byte, y: Byte, z: Byte)
    ensures var s := Split(x, y, z);
            && Complete(s, 2) == Halves(x)
            && Complete(s, 3) == Complete(s, 2) + Halves(y)
            && Complete(s, 4) == Complete(s, 3) + Halves(z)
  {
    var s := Split(x, y, z);
    SixHalves(x as int, y as int, z as int);
    assert Complete(s, 0) == [] && Pending(s, 0) == 0;
    assert Complete(s, 1) == Complete(s, 0) + Completes(0, 0, s[0]) == [x as int / 16];
    assert Completes(1, Pending(s, 1), s[1]) == [x as int % 16];
    assert Completes(2, Pending(s, 2), s[2]) == [y as int / 16, y as int % 16];
    assert Completes(3, Pending(s, 3), s[3]) == [z as int / 16, z as int % 16];
    assert Complete(s, 2) == Complete(s, 1) + Completes(1, Pending(s, 1), s[1]);
    assert Complete(s, 3) == Complete(s, 2) + Completes(2, Pending(s, 2), s[2]);
    assert Complete(s, 4) == Complete(s, 3) + Completes(3, Pending(s, 3), s[3]);
  }

  lemma NibblesFirst(b: Text)
    ensures b == [] ==> Nibbles(b) == []
    ensures b != [] ==> Nibbles(b) == Halves(b[0]) + Nibbles(b[1..])
  {
  }

  lemma DropTwice<T>(s: seq<T>, n: nat)
    requires n < |s|
    ensures s[n..][1..] == s[n + 1..] && s[n..][0] == s[n]
  {
  }

  lemma NibblesUnfold(b: Text)
    ensures |b| == 1 ==> Nibbles(b) == Halves(b[0])
    ensures |b| == 2 ==> Nibbles(b) == Halves(b[0]) + Halves(b[1])
    ensures |b| >= 3 ==> Nibbles(b) == Halves(b[0]) + Halves(b[1]) + Halves(b[2]) + Nibbles(b[3..])
  {
    hide Halves, Nibbles;
    NibblesFirst(b);
    if |b| >= 1 {
      NibblesFirst(b[1..]);
    }
    if |b| >= 2 {
      DropTwice(b, 1);
      NibblesFirst(b[2..]);
    }
    if |b| >= 3 {
      DropTwice(b, 2);
    }
  }

  /** All halves of all bytes come out complete, and nothing is left over, for every tail length. */
  lemma {:induction false} SextetHalves(b: Text)
    ensures var s := Sextets(b);
            |s| % 4 != 1 && Complete(s, |s|) == Nibbles(b)
  {
    NibblesUnfold(b);
    if |b| == 1 {
      GroupHalves(b[0], '\0', '\0');
      CompletePrefix(Sextets(b), Split(b[0], '\0', '\0'), 2);
    } else if |b| == 2 {
      GroupHalves(b[0], b[1], '\0');
      CompletePrefix(Sextets(b), Split(b[0], b[1], '\0'), 3);
    } else if |b| >= 3 {
      GroupHalves(b[0], b[1], b[2]);
      hide Split, Nibbles, Complete, Halves;
      SextetHalves(b[3..]);
      CompleteConcat(Split(b[0], b[1], b[2]), Sextets(b[3..]), |Sextets(b[3..])|);
      ModShift(4, |Sextets(b[3..])|);
    }
  }

  lemma {:induction false} LettersRead(t: Text, s: seq<Sextet>, n: nat)
    requires |s| <= n <= |t| && forall i | |s| <= i < n :: t[i] == '='
    requires forall i | 0 <= i < |s| :: t[i] == Letter(Standard, s[i])
    requires Readable(t)
    ensures Letters64(t, n) == s
    decreases n
  {
    if n > |s| {
      LettersRead(t, s, n - 1);
    } else if n > 0 {
      IndexOfLetter(Standard, s[n - 1]);
      LettersRead(t, s[..n - 1], n - 1);
      assert s == s[..n - 1] + [s[n - 1]];
    }
  }

  /** What b64tohex returns on the padded encoding of `b`, by its contract, is the hexadecimal form of `b`. */
  lemma HexOfBase64(b: Text)
    ensures var a := EncodeStd(b);
            && Readable(a)
            && var s := Letters64(a, |a|);
               |s| % 4 != 1 && HexChars(Complete(s, |s|)) == HexLower(b)
  {
    var a, s := EncodeStd(b), Sextets(b);
    forall i | 0 <= i < |a| ensures a[i] == '=' || Index(Standard, a[i]).Some? {
      if i < |s| {
        IndexOfLetter(Standard, s[i]);
      }
    }
    LettersRead(a, s, |a|);
    SextetHalves(b);
  }

  /** What RsaEncode does with the encrypted bytes when asked for hexadecimal. */
  method EncodeHex(b: Text) returns (d: Text)
    ensures d == HexLower(b)
  {
    HexOfBase64(b);
    d := B64ToHex(EncodeStd(b));
  }
}
