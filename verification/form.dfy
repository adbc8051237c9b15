/** `url.QueryEscape` and the `application/x-www-form-urlencoded` query text
    the follower builds when it forwards a write, with reference decoders
    that invert them. The decoders are stricter than Go's: they refuse
    non-ASCII characters in escaped text and pieces without exactly one `=`. */
module Form {
  import opened Wrappers
  import opened Text
  import Utf8

  /** The ASCII characters `url.QueryEscape` leaves as they are. */
  predicate IsUnreserved(c: char)
  {
    ('a' <= c <= 'z') || ('A' <= c <= 'Z') || ('0' <= c <= '9') || c == '-' || c == '_' || c == '.' || c == '~'
  }

  /** Upper-case hexadecimal digit, as `url.QueryEscape` writes it. */
  function HexDigit(d: int): (c: char)
    requires 0 <= d < 16
    ensures IsUnreserved(c)
  {
    "0123456789ABCDEF"[d]
  }

  predicate IsHex(c: char)
  {
    ('0' <= c <= '9') || ('A' <= c <= 'F') || ('a' <= c <= 'f')
  }

  function HexValue(c: char): (d: int)
    requires IsHex(c)
    ensures 0 <= d < 16
  {
    if '0' <= c <= '9' then c as int - '0' as int
    else if 'A' <= c <= 'F' then c as int - 'A' as int + 10
    else c as int - 'a' as int + 10
  }

  /** Only unreserved characters, `+` and `%` can appear in escaped text; in
      particular never `&`, `=`, `?`, `#` or a space. */
  predicate IsEscapedText(t: string)
  {
    forall i :: 0 <= i < |t| ==> IsUnreserved(t[i]) || t[i] == '+' || t[i] == '%'
  }

  /** How one byte of the UTF-8 encoding is written in a query component. */
  function EscapeByte(b: Utf8.byte): string
  {
    if b < 0x80 && IsUnreserved(b as int as char) then [b as int as char]
    else if b == 0x20 then "+"
    else ['%', HexDigit(b as int / 16), HexDigit(b as int % 16)]
  }

  function EscapeBytes(bs: Utf8.Bytes): (t: string)
    ensures IsEscapedText(t)
  {
    if |bs| == 0 then "" else EscapeByte(bs[0]) + EscapeBytes(bs[1..])
  }

  /** `url.QueryEscape(s)`. */
  function QueryEscape(s: string): (t: string)
    ensures IsEscapedText(t)
  {
    EscapeBytes(Utf8.Encode(s))
  }

  /** The bytes denoted by an escaped query component: `%XX` is one byte, `+`
      is a space, any other ASCII character stands for itself. */
  function UnescapeBytes(t: string): Option<Utf8.Bytes>
    decreases |t|
  {
    if |t| == 0 then Some([])
    else
      var head: Option<(Utf8.byte, nat)> :=
        if t[0] == '%' then
          if |t| >= 3 && IsHex(t[1]) && IsHex(t[2]) then Some(((HexValue(t[1]) * 16 + HexValue(t[2])) as Utf8.byte, 3))
          else None
        else if t[0] == '+' then Some((0x20, 1))
        else if t[0] as int < 0x80 then Some((t[0] as int as Utf8.byte, 1))
        else None;
      match head
      case None => None
      case Some((b, n)) =>
        match UnescapeBytes(t[n..])
        case None => None
        case Some(rest) => Some([b] + rest)
  }

  /** Reference inverse of `QueryEscape`: the text's bytes unescaped and read
      as UTF-8. Unlike `url.QueryUnescape` it refuses non-ASCII characters. */
  function QueryUnescape(t: string): Option<string>
  {
    match UnescapeBytes(t)
    case None => None
    case Some(bs) => Utf8.Decode(bs)
  }

  /** `[b]` in front of the bytes of `rest`, when `rest` unescapes. */
  function Prepend(b: Utf8.byte, rest: Option<Utf8.Bytes>): Option<Utf8.Bytes>
  {
    match rest
    case None => None
    case Some(r) => Some([b] + r)
  }

  lemma HexRoundTrip(d: int)
    requires 0 <= d < 16
    ensures IsHex(HexDigit(d)) && HexValue(HexDigit(d)) == d
  {
  }

  lemma UnescapeEscapeByte(b: Utf8.byte, rest: string)
    ensures UnescapeBytes(EscapeByte(b) + rest) == Prepend(b, UnescapeBytes(rest))
  {
    var e := EscapeByte(b);
    var t := e + rest;
    assert t[|e|..] == rest;
    if b < 0x80 && IsUnreserved(b as int as char) {
      assert t[0] == b as int as char;
    } else if b == 0x20 {
      assert t[0] == '+';
    } else {
      var hi, lo := b as int / 16, b as int % 16;
      HexRoundTrip(hi);
      HexRoundTrip(lo);
      assert t[0] == '%' && t[1] == HexDigit(hi) && t[2] == HexDigit(lo);
      assert (hi * 16 + lo) as Utf8.byte == b;
    }
  }

  lemma {:induction false} UnescapeEscapeBytes(bs: Utf8.Bytes)
    ensures UnescapeBytes(EscapeBytes(bs)) == Some(bs)
  {
    if |bs| > 0 {
      UnescapeEscapeBytes(bs[1..]);
      UnescapeEscapeByte(bs[0], EscapeBytes(bs[1..]));
      assert [bs[0]] + bs[1..] == bs;
    }
  }

  /** Escaping loses nothing: unescaping the escaped text gives the original string. */
  lemma QueryRoundTrip(s: string)
    ensures QueryUnescape(QueryEscape(s)) == Some(s)
  {
    UnescapeEscapeBytes(Utf8.Encode(s));
    Utf8.DecodeEncode(s);
  }

  /** A string of unreserved ASCII characters is its own escape. */
  lemma {:induction false} QueryEscapeUnreserved(s: string)
    requires forall i :: 0 <= i < |s| ==> IsUnreserved(s[i])
    ensures QueryEscape(s) == s
  {
    if |s| > 0 {
      QueryEscapeUnreserved(s[1..]);
      assert [s[0]] + s[1..] == s;
    }
  }

  /** `name=value` with both sides escaped. */
  function EncodePair(p: (string, string)): string
  {
    QueryEscape(p.0) + "=" + QueryEscape(p.1)
  }

  function EncodePairs(ps: seq<(string, string)>): (r: seq<string>)
    ensures |r| == |ps|
    ensures forall i :: 0 <= i < |ps| ==> r[i] == EncodePair(ps[i])
  {
    if |ps| == 0 then [] else [EncodePair(ps[0])] + EncodePairs(ps[1..])
  }

  /** A form query: the escaped pairs joined by `&`. */
  function FormEncode(ps: seq<(string, string)>): string
  {
    Join(EncodePairs(ps), '&')
  }

  function DecodePair(piece: string): Option<(string, string)>
  {
    var sides := Split(piece, '=');
    if |sides| != 2 then None
    else
      match (QueryUnescape(sides[0]), QueryUnescape(sides[1]))
      case (Some(n), Some(v)) => Some((n, v))
      case _ => None
  }

  function DecodePieces(pieces: seq<string>): Option<seq<(string, string)>>
  {
    if |pieces| == 0 then Some([])
    else
      match (DecodePair(pieces[0]), DecodePieces(pieces[1..]))
      case (Some(p), Some(ps)) => Some([p] + ps)
      case _ => None
  }

  /** The pairs of a form query, in order; the empty query has none. */
  function FormDecode(q: string): Option<seq<(string, string)>>
  {
    if q == "" then Some([]) else DecodePieces(Split(q, '&'))
  }

  lemma DecodeEncodePair(p: (string, string))
    ensures DecodePair(EncodePair(p)) == Some(p)
  {
    var a, b := QueryEscape(p.0), QueryEscape(p.1);
    assert '=' !in a && '=' !in b;
    SplitCons(a, '=', b);
    assert Split(b, '=') == [b];
    QueryRoundTrip(p.0);
    QueryRoundTrip(p.1);
  }

  lemma {:induction false} DecodeEncodePieces(ps: seq<(string, string)>)
    ensures DecodePieces(EncodePairs(ps)) == Some(ps)
  {
    if |ps| > 0 {
      var pieces := EncodePairs(ps);
      assert pieces[0] == EncodePair(ps[0]);
      assert pieces[1..] == EncodePairs(ps[1..]);
      assert DecodePair(pieces[0]) == Some(ps[0]) by { DecodeEncodePair(ps[0]); }
      assert DecodePieces(pieces[1..]) == Some(ps[1..]) by { DecodeEncodePieces(ps[1..]); }
      assert [ps[0]] + ps[1..] == ps;
    }
  }

  /** The characters a form query is written in: those of escaped text, and
      the `=` and `&` that separate names, values and pairs. No `#`, space or
      `?` can occur, so a URL parser takes the whole query as the query. */
  predicate IsFormText(q: string)
  {
    forall i :: 0 <= i < |q| ==> IsUnreserved(q[i]) || q[i] == '+' || q[i] == '%' || q[i] == '=' || q[i] == '&'
  }

  lemma {:induction false} JoinFormText(parts: seq<string>)
    requires forall i :: 0 <= i < |parts| ==> IsFormText(parts[i])
    ensures IsFormText(Join(parts, '&'))
  {
    if |parts| > 1 {
      JoinFormText(parts[1..]);
      var rest := Join(parts[1..], '&');
      assert IsFormText(parts[0]);
      assert Join(parts, '&') == parts[0] + ['&'] + rest;
    }
  }

  /** Form text holds no `#`, space or `?`. */
  lemma FormTextExcludes(q: string)
    requires IsFormText(q)
    ensures '#' !in q && ' ' !in q && '?' !in q
  {
    forall i | 0 <= i < |q|
      ensures q[i] != '#' && q[i] != ' ' && q[i] != '?'
    {
      assert IsUnreserved(q[i]) || q[i] == '+' || q[i] == '%' || q[i] == '=' || q[i] == '&';
    }
  }

  /** A form query is form text. */
  lemma FormEncodeIsFormText(ps: seq<(string, string)>)
    ensures IsFormText(FormEncode(ps))
  {
    var pieces := EncodePairs(ps);
    forall i | 0 <= i < |pieces|
      ensures IsFormText(pieces[i])
    {
      var a, b := QueryEscape(ps[i].0), QueryEscape(ps[i].1);
      assert pieces[i] == a + "=" + b;
    }
    JoinFormText(pieces);
  }

  /** Form round trip: decoding an encoded list of pairs gives the list back. */
  lemma FormRoundTrip(ps: seq<(string, string)>)
    ensures FormDecode(FormEncode(ps)) == Some(ps)
  {
    var pieces := EncodePairs(ps);
    if |ps| == 0 {
    } else {
      forall i | 0 <= i < |pieces|
        ensures '&' !in pieces[i]
      {
        var a, b := QueryEscape(ps[i].0), QueryEscape(ps[i].1);
        assert pieces[i] == a + "=" + b;
        assert '&' !in a && '&' !in b;
      }
      assert FormEncode(ps) != "" by {
        if |pieces| == 1 { assert |pieces[0]| >= 1; } else { assert |FormEncode(ps)| >= |pieces[0]|; }
      }
      SplitJoin(pieces, '&');
      DecodeEncodePieces(ps);
    }
  }
}
