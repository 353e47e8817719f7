/** The sender/trapper side of ZabbixBase: the request wrapper built by
    socket_to_zabbix and the check connect_zabbix applies to the bytes the
    Zabbix server answers with. */
module Sender {
  import opened Json

  /** One octet read from the trapper socket. */
  type byte = b: int | 0 <= b < 0x100

  /** The protocol signature opening every reply: "ZBXD" and version byte 1. */
  const Magic: seq<byte> := [0x5A, 0x42, 0x58, 0x44, 0x01]

  /** The reply header is the signature followed by an 8-byte block whose
      first four bytes hold the body length. */
  const HeaderSize := 13

  function Min(a: int, b: int): int { if a <= b then a else b }

  /** What connect_zabbix makes of the bytes the server sends back. */
  datatype Reply =
    | Rejected               // the signature is wrong: logged, the method returns None
    | Raised                 // struct.unpack or recv raise out of the method
    | Body(data: seq<byte>)  // the bytes handed to json.loads

  /** struct.unpack('i', b) on a little-endian host: a signed 32-bit integer. */
  function Int32LE(b: seq<byte>): (n: int)
    requires |b| == 4
    ensures -0x8000_0000 <= n < 0x8000_0000
    ensures n < 0 <==> b[3] >= 0x80
    ensures b[3] < 0x80 ==> n == b[0] as int + 0x100 * b[1] as int + 0x1_0000 * b[2] as int + 0x100_0000 * b[3] as int
  {
    var u: int := b[0] as int + 0x100 * b[1] as int + 0x1_0000 * b[2] as int + 0x100_0000 * b[3] as int;
    if u >= 0x8000_0000 then u - 0x1_0000_0000 else u
  }

  /** The body length a reply declares (bytes 5..8 of the stream). */
  function Declared(stream: seq<byte>): int
    requires |stream| >= 9
  {
    Int32LE(stream[5..9])
  }

  /** The three reads of connect_zabbix over the bytes `stream` the server
      sends before closing: recv(5), recv(8) and recv(length), each with
      MSG_WAITALL, assuming each returns what was asked unless the stream
      ends. */
  function ParseReply(stream: seq<byte>): (r: Reply)
    ensures r.Rejected? <==> |stream| < 5 || stream[..5] != Magic
    ensures r.Raised? <==> |stream| >= 5 && stream[..5] == Magic && (|stream| < 9 || Declared(stream) < 0)
    ensures r.Body? ==> |stream| >= 9 && |r.data| <= Declared(stream)
    ensures r.Body? ==> r.data <= stream[Min(HeaderSize, |stream|)..]
    ensures r.Body? ==> |r.data| == Declared(stream) || r.data == stream[Min(HeaderSize, |stream|)..]
  {
    var head := stream[..Min(5, |stream|)];
    if head != Magic then Rejected
    else
      var lengthBlock := stream[5..Min(HeaderSize, |stream|)];
      if |lengthBlock| < 4 then Raised
      else
        var n := Int32LE(lengthBlock[..4]);
        if n < 0 then Raised
        else
          var rest := stream[Min(HeaderSize, |stream|)..];
          Body(rest[..Min(n, |rest|)])
  }

  /** A well-formed reply: signature, the body length in the first four bytes
      of the 8-byte block, any four further bytes, then the body. */
  ghost predicate Frames(stream: seq<byte>, body: seq<byte>)
  {
    |stream| >= HeaderSize + |body| && stream[..5] == Magic
    && Declared(stream) == |body| && stream[HeaderSize..HeaderSize + |body|] == body
  }

  /** A well-formed reply yields exactly its body, whatever follows it. */
  lemma FramedReplyYieldsBody(stream: seq<byte>, body: seq<byte>)
    requires Frames(stream, body)
    ensures ParseReply(stream) == Body(body)
  {
    assert stream[..Min(5, |stream|)] == stream[..5];
    assert stream[5..HeaderSize][..4] == stream[5..9];
  }

  /** A wrong signature is decided on the first five bytes alone: nothing
      after them is read. */
  lemma BadMagicReadsNothingMore(head: seq<byte>, rest: seq<byte>)
    requires |head| == 5 && head != Magic
    ensures ParseReply(head + rest) == Rejected
  {
    assert (head + rest)[..5] == head;
  }

  /** Bytes 4..7 of the length block (stream bytes 9..12) never matter. */
  lemma PaddingIgnored(s: seq<byte>, t: seq<byte>)
    requires |s| == |t| >= HeaderSize
    requires s[..9] == t[..9] && s[HeaderSize..] == t[HeaderSize..]
    ensures ParseReply(s) == ParseReply(t)
  {
    assert s[..5] == s[..9][..5] && t[..5] == t[..9][..5];
    assert s[5..9] == s[..9][5..] && t[5..9] == t[..9][5..];
    assert s[5..HeaderSize][..4] == s[5..9];
    assert t[5..HeaderSize][..4] == t[5..9];
  }

  /** A stream that ends before the declared body does yields a shorter body:
      the short read is not detected. */
  lemma ShortReadIsTruncated(stream: seq<byte>)
    requires |stream| >= 9 && stream[..5] == Magic && Declared(stream) > 0
    requires |stream| < HeaderSize + Declared(stream)
    ensures ParseReply(stream).Body? && |ParseReply(stream).data| < Declared(stream)
  {
    assert stream[..Min(5, |stream|)] == stream[..5];
    assert stream[5..Min(HeaderSize, |stream|)][..4] == stream[5..9];
    var rest := stream[Min(HeaderSize, |stream|)..];
    assert |rest| < Declared(stream);
  }

  /** The request socket_to_zabbix sends: a dict payload becomes a one-element
      "data" list, a list is sent as it is, anything else gets no "data" key. */
  function SenderRequest(payload: Json): (req: map<string, Json>)
    ensures "request" in req && req["request"] == JString("sender data")
    ensures "data" in req <==> payload.JObject? || payload.JArray?
    ensures payload.JObject? ==> req["data"] == JArray([payload])
    ensures payload.JArray? ==> req["data"] == payload
    ensures req.Keys <= {"request", "data"}
  {
    var base := map["request" := JString("sender data")];
    match payload
    case JObject(_) => base["data" := JArray([payload])]
    case JArray(_) => base["data" := payload]
    case _ => base
  }
}
