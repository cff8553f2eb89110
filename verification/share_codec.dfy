/** Share references as object ids: one reference is three percent-encoded fields, several are a
    base 64 packed JSON list behind a marker.
 */
module ShareCodec {

  import opened Wrappers
  import opened Strings
  import opened Base64

  datatype ShareRef = ShareRef(link: Text, password: Text, node: Text)

  const BAR: Byte := '|'

  const MULTI_PREFIX: Text := "shares:"

  // ----- percent encoding, section 2.1 of RFC 3986, for one path segment -----

  /** The bytes url.PathEscape leaves alone: unreserved characters and the delimiters allowed in a segment. */
  predicate Plain(c: Byte) {
    || 'a' <= c <= 'z' || 'A' <= c <= 'Z' || '0' <= c <= '9'
    || c == '-' || c == '_' || c == '.' || c == '~'
    || c == '$' || c == '&' || c == '+' || c == ':' || c == '=' || c == '@'
  }

  function HexDigit(n: int): Byte
    requires 0 <= n < 16
  {
    if n < 10 then ByteOf('0' as int + n) else ByteOf('A' as int + n - 10)
  }

  function HexValue(c: Byte): (v: Option<nat>)
    ensures v.Some? ==> v.value < 16
  {
    if '0' <= c <= '9' then Some(c as nat - '0' as nat)
    else if 'A' <= c <= 'F' then Some(c as nat - 'A' as nat + 10)
    else if 'a' <= c <= 'f' then Some(c as nat - 'a' as nat + 10)
    else None
  }

  function EscapeByte(c: Byte): Text {
    if Plain(c) then [c] else ['%', HexDigit(c as int / 16), HexDigit(c as int % 16)]
  }

  function PathEscape(s: Text): Text {
    if s == [] then [] else EscapeByte(s[0]) + PathEscape(s[1..])
  }

  function PathUnescape(s: Text): Option<Text> {
    if s == [] then Some([])
    else if s[0] != '%' then
      match PathUnescape(s[1..])
      case None => None
      case Some(rest) => Some([s[0]] + rest)
    else if |s| < 3 then None
    else
      match (HexValue(s[1]), HexValue(s[2]), PathUnescape(s[3..]))
      case (Some(hi), Some(lo), Some(rest)) => Some([ByteOf(hi * 16 + lo)] + rest)
      case _ => None
  }

  lemma {:induction false} UnescapeEscape(s: Text)
    ensures PathUnescape(PathEscape(s)) == Some(s)
  {
    if s != [] {
      var c := s[0];
      UnescapeEscape(s[1..]);
      assert [c] + s[1..] == s;
      var e := PathEscape(s);
      if Plain(c) {
        assert e[1..] == PathEscape(s[1..]);
      } else {
        assert e[3..] == PathEscape(s[1..]);
        HexRoundTrip(c);
      }
    }
  }

  lemma HexRoundTrip(c: Byte)
    ensures HexValue(HexDigit(c as int / 16)) == Some(c as int / 16)
    ensures HexValue(HexDigit(c as int % 16)) == Some(c as int % 16)
    ensures ByteOf(c as int / 16 * 16 + c as int % 16) == c
  {
  }

  lemma {:induction false} EscapeHasNoBar(s: Text)
    ensures '|' !in PathEscape(s)
  {
    if s != [] {
      EscapeHasNoBar(s[1..]);
      assert '|' !in EscapeByte(s[0]);
    }
  }

  // ----- one reference -----

  function EncodeShareRef(ref: ShareRef): Text {
    PathEscape(ref.link) + "|" + PathEscape(ref.password) + "|" + PathEscape(ref.node)
  }

  function DecodeShareRef(id: Text): Option<ShareRef> {
    match Cut(id, BAR)
    case None => None
    case Some((a, tail)) =>
      match Cut(tail, BAR)
      case None => None
      case Some((b, c)) =>
        match (PathUnescape(a), PathUnescape(b), PathUnescape(c))
        case (Some(link), Some(password), Some(node)) =>
          if link == [] then None else Some(ShareRef(link, password, node))
        case _ => None
  }

  /** One reference survives exactly when its link id is not empty. */
  lemma SingleRoundTrip(ref: ShareRef)
    ensures DecodeShareRef(EncodeShareRef(ref)) == if ref.link == [] then None else Some(ref)
  {
    hide PathEscape, PathUnescape, Cut;
    var a, b, c := PathEscape(ref.link), PathEscape(ref.password), PathEscape(ref.node);
    EscapeHasNoBar(ref.link);
    EscapeHasNoBar(ref.password);
    assert "|" == [BAR];
    CutFirst(a, b + [BAR] + c, BAR);
    assert EncodeShareRef(ref) == a + [BAR] + (b + [BAR] + c);
    CutFirst(b, c, BAR);
    UnescapeEscape(ref.link);
    UnescapeEscape(ref.password);
    UnescapeEscape(ref.node);
  }

  // ----- lists of references -----

  /** The JSON library, of which only the round trip on valid UTF-8 text is used. */
  datatype Json = Json(
    marshal: seq<ShareRef> -> Text,
    unmarshal: Text -> Option<seq<ShareRef>>,
    isUtf8: Text -> bool)
  {
    predicate IsText(ref: ShareRef) {
      isUtf8(ref.link) && isUtf8(ref.password) && isUtf8(ref.node)
    }

    ghost predicate Faithful() {
      forall refs: seq<ShareRef> | (forall i | 0 <= i < |refs| :: IsText(refs[i])) ::
        unmarshal(marshal(refs)) == Some(refs)
    }
  }

  function EncodeShareRefs(json: Json, refs: seq<ShareRef>): Text {
    if |refs| == 1 then EncodeShareRef(refs[0])
    else MULTI_PREFIX + EncodeRawUrl(json.marshal(refs))
  }

  function DecodeShareRefs(json: Json, id: Text): Option<seq<ShareRef>> {
    if !(MULTI_PREFIX <= id) then
      match DecodeShareRef(id)
      case None => None
      case Some(ref) => Some([ref])
    else
      match DecodeRawUrl(id[|MULTI_PREFIX|..])
      case None => None
      case Some(data) =>
        match json.unmarshal(data)
        case None => None
        case Some(refs) => if refs == [] then None else Some(refs)
  }

  /** A link id that a lone reference can carry. */
  predicate GoodLink(link: Text) {
    link != [] && !(MULTI_PREFIX <= link)
  }

  /** A marker of plain bytes starts the encoding exactly when it starts the encoded text. */
  lemma {:induction false} PlainPrefix(marker: Text, s: Text, tail: Text)
    requires forall i | 0 <= i < |marker| :: Plain(marker[i])
    ensures marker <= PathEscape(s) + "|" + tail <==> marker <= s
  {
    var e := PathEscape(s) + "|" + tail;
    if marker != [] {
      if s == [] {
        assert e[0] == '|';
      } else if Plain(s[0]) {
        PlainPrefix(marker[1..], s[1..], tail);
        assert e == [s[0]] + (PathEscape(s[1..]) + "|" + tail);
        PrefixTail(marker, e);
        PrefixTail(marker, s);
        assert e[1..] == PathEscape(s[1..]) + "|" + tail;
      } else {
        assert e[0] == '%';
      }
    }
  }

  lemma PrefixTail(p: Text, s: Text)
    requires p != [] && s != []
    ensures p <= s <==> p[0] == s[0] && p[1..] <= s[1..]
  {
    if p[0] == s[0] && p[1..] <= s[1..] {
      assert p == [p[0]] + p[1..] && s == [s[0]] + s[1..];
    }
  }

  /** A lone reference: the id must not be mistaken for a packed list. */
  lemma LoneRoundTrip(json: Json, ref: ShareRef)
    ensures DecodeShareRefs(json, EncodeShareRef(ref)) == if GoodLink(ref.link) then Some([ref]) else None
  {
    hide PathEscape, Cut, Indices;
    var id := EncodeShareRef(ref);
    var tail := PathEscape(ref.password) + "|" + PathEscape(ref.node);
    assert id == PathEscape(ref.link) + "|" + tail;
    PlainPrefix(MULTI_PREFIX, ref.link, tail);
    SingleRoundTrip(ref);
    if MULTI_PREFIX <= ref.link {
      BarAfterPrefix(MULTI_PREFIX, PathEscape(ref.link), tail);
    }
  }

  /** The bar behind the first field is not a base 64 letter. */
  lemma BarAfterPrefix(marker: Text, field: Text, tail: Text)
    requires marker <= field + "|" + tail && '|' !in marker
    ensures Indices(UrlSafe, (field + "|" + tail)[|marker|..]) == None
  {
    var id := field + "|" + tail;
    assert id[|field|] == '|';
    assert |marker| <= |field|;
    StrayByteFails(UrlSafe, id[|marker|..], |field| - |marker|);
  }

  /** Which lists survive packing into an id and unpacking again. */
  lemma RefsRoundTrip(json: Json, refs: seq<ShareRef>)
    requires json.Faithful() && forall i | 0 <= i < |refs| :: json.IsText(refs[i])
    ensures DecodeShareRefs(json, EncodeShareRefs(json, refs)) == Some(refs)
            <==> refs != [] && (|refs| == 1 ==> GoodLink(refs[0].link))
    ensures |refs| == 1 && !GoodLink(refs[0].link) ==> DecodeShareRefs(json, EncodeShareRefs(json, refs)) == None
  {
    if |refs| == 1 {
      LoneRoundTrip(json, refs[0]);
      hide DecodeShareRefs, GoodLink;
      assert refs == [refs[0]];
    } else {
      var data := json.marshal(refs);
      var id := MULTI_PREFIX + EncodeRawUrl(data);
      hide EncodeRawUrl, DecodeRawUrl, DecodeShareRef;
      RawUrlRoundTrip(data);
      assert id[|MULTI_PREFIX|..] == EncodeRawUrl(data);
    }
  }
}
