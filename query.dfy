/** `http_build_query($fields, '', '&', PHP_QUERY_RFC1738)`: the query-string
    encoding used for every URL the client builds, and a parser that reads
    such a query back. Encoding is PHP's `urlencode` over the UTF-8 bytes of
    a string: letters, digits, `-`, `_` and `.` stay as they are, a space
    becomes `+`, every other byte becomes `%` and two upper-case hex digits. */
module QueryString {

  import opened Values
  import Strings

  predicate IsUnreserved(b: int) {
    || 'A' as int <= b <= 'Z' as int
    || 'a' as int <= b <= 'z' as int
    || '0' as int <= b <= '9' as int
    || b == '-' as int || b == '_' as int || b == '.' as int
  }

  function HexDigit(d: int): char
    requires 0 <= d < 16
  {
    "0123456789ABCDEF"[d]
  }

  /** The value of an upper-case hexadecimal digit, if `c` is one. */
  function HexValue(c: char): Option<int> {
    if '0' <= c <= '9' then Some(c as int - '0' as int)
    else if 'A' <= c <= 'F' then Some(c as int - 'A' as int + 10)
    else None
  }

  lemma HexRoundTrip(d: int)
    requires 0 <= d < 16
    ensures HexValue(HexDigit(d)) == Some(d)
  {
  }

  /** `urlencode` of a single byte. */
  function EncodeByte(b: int): (e: string)
    requires Strings.IsByte(b)
  {
    if IsUnreserved(b) then [b as char]
    else if b == ' ' as int then "+"
    else ['%', HexDigit(b / 16), HexDigit(b % 16)]
  }

  function EncodeBytes(bs: seq<int>): string
    requires forall i :: 0 <= i < |bs| ==> Strings.IsByte(bs[i])
  {
    if bs == [] then "" else EncodeByte(bs[0]) + EncodeBytes(bs[1..])
  }

  /** PHP's `urlencode(s)`. */
  function UrlEncode(s: string): string {
    Strings.Utf8BytesAreBytes(s);
    EncodeBytes(Strings.Utf8Bytes(s))
  }

  /** `urldecode` on the output alphabet of `urlencode`: the bytes an encoded
      component stands for, or None if it is not such a component. */
  function DecodeBytes(e: string): Option<seq<int>>
    decreases |e|
  {
    if e == [] then Some([])
    else if e[0] == '+' then
      match DecodeBytes(e[1..])
      case Some(rest) => Some([' ' as int] + rest)
      case None => None
    else if e[0] == '%' then
      if |e| < 3 || HexValue(e[1]).None? || HexValue(e[2]).None? then None
      else
        match DecodeBytes(e[3..])
        case Some(rest) => Some([16 * HexValue(e[1]).value + HexValue(e[2]).value] + rest)
        case None => None
    else if IsUnreserved(e[0] as int) then
      match DecodeBytes(e[1..])
      case Some(rest) => Some([e[0] as int] + rest)
      case None => None
    else None
  }

  lemma DecodeEncodeByte(b: int, rest: string)
    requires Strings.IsByte(b)
    ensures DecodeBytes(EncodeByte(b) + rest) ==
            match DecodeBytes(rest)
            case Some(r) => Some([b] + r)
            case None => None
  {
    var e := EncodeByte(b) + rest;
    if IsUnreserved(b) {
      assert e[1..] == rest;
    } else if b == ' ' as int {
      assert e[1..] == rest;
    } else {
      assert e[3..] == rest;
      HexRoundTrip(b / 16);
      HexRoundTrip(b % 16);
    }
  }

  lemma {:induction false} DecodeEncodeBytes(bs: seq<int>)
    requires forall i :: 0 <= i < |bs| ==> Strings.IsByte(bs[i])
    ensures DecodeBytes(EncodeBytes(bs)) == Some(bs)
  {
    if bs != [] {
      DecodeEncodeBytes(bs[1..]);
      DecodeEncodeByte(bs[0], EncodeBytes(bs[1..]));
      assert [bs[0]] + bs[1..] == bs;
    }
  }

  /** Decoding an encoded string gives back exactly the string's bytes. */
  lemma DecodeUrlEncode(s: string)
    ensures DecodeBytes(UrlEncode(s)) == Some(Strings.Utf8Bytes(s))
  {
    Strings.Utf8BytesAreBytes(s);
    DecodeEncodeBytes(Strings.Utf8Bytes(s));
  }

  /** A character `urlencode` can produce. */
  predicate IsEncodedChar(c: char) {
    IsUnreserved(c as int) || c == '+' || c == '%'
  }

  lemma {:induction false} EncodeBytesAlphabet(bs: seq<int>)
    requires forall i :: 0 <= i < |bs| ==> Strings.IsByte(bs[i])
    ensures forall i :: 0 <= i < |EncodeBytes(bs)| ==> IsEncodedChar(EncodeBytes(bs)[i])
  {
    if bs != [] {
      EncodeBytesAlphabet(bs[1..]);
      var head := EncodeByte(bs[0]);
      assert forall i :: 0 <= i < |head| ==> IsEncodedChar(head[i]);
    }
  }

  /** An encoded component never holds the characters that delimit a query:
      `&`, `=`, `?` and `#`. */
  lemma UrlEncodeIsSafe(s: string)
    ensures '&' !in UrlEncode(s) && '=' !in UrlEncode(s)
    ensures '?' !in UrlEncode(s) && '#' !in UrlEncode(s)
  {
    Strings.Utf8BytesAreBytes(s);
    EncodeBytesAlphabet(Strings.Utf8Bytes(s));
  }

  /** How `http_build_query` renders a scalar: booleans become 1 and 0. */
  function QueryText(v: Scalar): string {
    match v
    case Bool(b) => if b then "1" else "0"
    case _ => Text(v)
  }

  /** The `key=value` pieces of a query; null values are skipped. */
  function Pieces(fields: seq<(string, Scalar)>): seq<string> {
    if fields == [] then []
    else if fields[0].1 == Null then Pieces(fields[1..])
    else [UrlEncode(fields[0].0) + "=" + UrlEncode(QueryText(fields[0].1))] + Pieces(fields[1..])
  }

  /** `http_build_query($fields, '', '&', PHP_QUERY_RFC1738)`. */
  function BuildQuery(fields: seq<(string, Scalar)>): string {
    Strings.Join(Pieces(fields), '&')
  }

  /** The byte pairs a query carries: what a server reads out of it. */
  function Carried(fields: seq<(string, Scalar)>): seq<(seq<int>, seq<int>)> {
    if fields == [] then []
    else if fields[0].1 == Null then Carried(fields[1..])
    else [(Strings.Utf8Bytes(fields[0].0), Strings.Utf8Bytes(QueryText(fields[0].1)))]
         + Carried(fields[1..])
  }

  function ParsePiece(piece: string): Option<(seq<int>, seq<int>)> {
    var kv := Strings.Split(piece, '=');
    if |kv| != 2 then None
    else match (DecodeBytes(kv[0]), DecodeBytes(kv[1]))
      case (Some(k), Some(v)) => Some((k, v))
      case _ => None
  }

  function ParsePieces(pieces: seq<string>): Option<seq<(seq<int>, seq<int>)>> {
    if pieces == [] then Some([])
    else match (ParsePiece(pieces[0]), ParsePieces(pieces[1..]))
      case (Some(p), Some(ps)) => Some([p] + ps)
      case _ => None
  }

  /** Reads a query string `k=v&k=v...` back into decoded byte pairs. */
  function ParseQuery(q: string): Option<seq<(seq<int>, seq<int>)>> {
    if q == "" then Some([]) else ParsePieces(Strings.Split(q, '&'))
  }

  lemma ParseOnePiece(k: string, v: string)
    ensures ParsePiece(UrlEncode(k) + "=" + UrlEncode(v)) ==
            Some((Strings.Utf8Bytes(k), Strings.Utf8Bytes(v)))
  {
    UrlEncodeIsSafe(k);
    UrlEncodeIsSafe(v);
    assert UrlEncode(k) + "=" + UrlEncode(v) == Strings.Join([UrlEncode(k), UrlEncode(v)], '=');
    Strings.SplitJoin([UrlEncode(k), UrlEncode(v)], '=');
    DecodeUrlEncode(k);
    DecodeUrlEncode(v);
  }

  lemma {:induction false} PiecesParse(fields: seq<(string, Scalar)>)
    ensures ParsePieces(Pieces(fields)) == Some(Carried(fields))
    ensures forall p :: p in Pieces(fields) ==> '&' !in p && p != ""
  {
    if fields != [] {
      PiecesParse(fields[1..]);
      if fields[0].1 != Null {
        var k, v := fields[0].0, QueryText(fields[0].1);
        var p := UrlEncode(k) + "=" + UrlEncode(v);
        ParseOnePiece(k, v);
        UrlEncodeIsSafe(k);
        UrlEncodeIsSafe(v);
        assert p[|UrlEncode(k)|] == '=';
        assert ([p] + Pieces(fields[1..]))[1..] == Pieces(fields[1..]);
      }
    }
  }

  /** Round trip: a built query carries exactly the non-null fields, in order,
      each key and value as its bytes. */
  lemma ParseBuildQuery(fields: seq<(string, Scalar)>)
    ensures ParseQuery(BuildQuery(fields)) == Some(Carried(fields))
  {
    PiecesParse(fields);
    var ps := Pieces(fields);
    if ps == [] {
      assert BuildQuery(fields) == "";
    } else {
      Strings.SplitJoin(ps, '&');
      JoinNonEmpty(ps, '&');
    }
  }

  lemma {:induction false} JoinNonEmpty(parts: seq<string>, sep: char)
    requires |parts| > 0 && parts[0] != ""
    ensures Strings.Join(parts, sep) != ""
  {
  }
}
