/** Reading the server name out of a TLS ClientHello: the record layer of section 5.1 and the
    ClientHello of section 4.1.2 of RFC 8446, and the server_name extension of section 3 of RFC 6066. */
module Sni {
  import opened Text

  type Byte = b: int | 0 <= b < 256
  type Bytes = seq<Byte>

  const HANDSHAKE: Byte := 0x16
  const CLIENT_HELLO: Byte := 0x01
  const SERVER_NAME := 0
  const HOST_NAME: Byte := 0

  function Word(high: Byte, low: Byte): (n: nat)
    ensures n < 65536
  {
    high * 256 + low
  }

  // ---- UTF-8 ----

  predicate Continues(s: Bytes, i: nat, low: Byte, high: Byte) {
    i < |s| && low <= s[i] <= high
  }

  /** Length of the well-formed character `s` starts with, or zero. */
  function CharLength(s: Bytes): (n: nat)
    requires |s| > 0
    ensures n <= |s|
  {
    if s[0] < 0x80 then 1
    else if 0xC2 <= s[0] <= 0xDF && Continues(s, 1, 0x80, 0xBF) then 2
    else if 0xE0 <= s[0] <= 0xEF
      && Continues(s, 1, if s[0] == 0xE0 then 0xA0 else 0x80, if s[0] == 0xED then 0x9F else 0xBF)
      && Continues(s, 2, 0x80, 0xBF) then 3
    else if 0xF0 <= s[0] <= 0xF4
      && Continues(s, 1, if s[0] == 0xF0 then 0x90 else 0x80, if s[0] == 0xF4 then 0x8F else 0xBF)
      && Continues(s, 2, 0x80, 0xBF) && Continues(s, 3, 0x80, 0xBF) then 4
    else 0
  }

  predicate Utf8(s: Bytes) {
    s == [] || (var n := CharLength(s); n > 0 && Utf8(s[n..]))
  }

  // ---- What the bytes say ----

  function Skip(s: Bytes, n: nat): Option<Bytes> {
    if n <= |s| then Some(s[n..]) else None
  }

  function AtMost(s: Bytes, n: nat): Bytes {
    if n <= |s| then s[..n] else s
  }

  /** The part of the first handshake record that has arrived, without its header. */
  function RecordPayload(buf: Bytes): Option<Bytes> {
    if |buf| < 5 || buf[0] != HANDSHAKE then None
    else Some(AtMost(buf[5..], Word(buf[3], buf[4])))
  }

  /** Past a vector whose length takes one byte. */
  function SkipShort(s: Bytes): Option<Bytes> {
    if |s| < 1 then None else Skip(s, 1 + s[0] as nat)
  }

  /** Past a vector whose length takes two bytes. */
  function SkipLong(s: Bytes): Option<Bytes> {
    if |s| < 2 then None else Skip(s, 2 + Word(s[0], s[1]))
  }

  function AndThen(s: Option<Bytes>, f: Bytes -> Option<Bytes>): Option<Bytes> {
    if s.Some? then f(s.value) else None
  }

  /** Past the handshake header, the version and the random. */
  function SkipFixed(payload: Bytes): Option<Bytes> {
    if |payload| < 1 || payload[0] != CLIENT_HELLO then None else Skip(payload, 38)
  }

  function OpenExtensions(s: Bytes): Option<Bytes> {
    if |s| < 2 then None else Some(AtMost(s[2..], Word(s[0], s[1])))
  }

  /** The extensions of a ClientHello, as far as they have arrived. */
  function Extensions(payload: Bytes): Option<Bytes> {
    AndThen(AndThen(AndThen(AndThen(SkipFixed(payload), SkipShort), SkipLong), SkipShort), OpenExtensions)
  }

  /** The data of the first server_name extension, if every extension up to it is complete. */
  function ServerNameData(ext: Bytes): Option<Bytes> {
    if |ext| < 4 then None
    else
      var n := Word(ext[2], ext[3]);
      if 4 + n > |ext| then None
      else if Word(ext[0], ext[1]) == SERVER_NAME then Some(ext[4..4 + n])
      else ServerNameData(ext[4 + n..])
  }

  /** The first host name among server name entries, if it is well-formed UTF-8. */
  function HostName(entries: Bytes): Option<Bytes> {
    if |entries| < 3 then None
    else
      var n := Word(entries[1], entries[2]);
      if 3 + n > |entries| then None
      else if entries[0] == HOST_NAME then
        if Utf8(entries[3..3 + n]) then Some(entries[3..3 + n]) else None
      else HostName(entries[3 + n..])
  }

  function ListedHost(data: Bytes): Option<Bytes> {
    if |data| < 2 then None else HostName(data[2..])
  }

  function ServerName(buf: Bytes): Option<Bytes> {
    AndThen(AndThen(AndThen(RecordPayload(buf), Extensions), ServerNameData), ListedHost)
  }

  // ---- The parser ----

  method ParseServerNames(data: Bytes) returns (name: Option<Bytes>)
    ensures name == ListedHost(data)
  {
    if |data| < 2 {
      return None;
    }
    var pos := 2;
    while pos + 3 <= |data|
      invariant 2 <= pos <= |data|
      invariant ListedHost(data) == HostName(data[pos..])
    {
      ghost var entries := data[pos..];
      var kind := data[pos];
      var length := Word(data[pos + 1], data[pos + 2]);
      pos := pos + 3;
      if pos + length > |data| {
        return None;
      }
      assert entries[3..3 + length] == data[pos..pos + length];
      if kind == HOST_NAME {
        return if Utf8(data[pos..pos + length]) then Some(data[pos..pos + length]) else None;
      }
      assert entries[3 + length..] == data[pos + length..];
      pos := pos + length;
    }
    return None;
  }

  /** Field by field to the extensions, then extension by extension to the first server_name. */
  method ParseClientHello(buf: Bytes) returns (name: Option<Bytes>)
    ensures name == ServerName(buf)
  {
    if |buf| == 0 || buf[0] != HANDSHAKE || |buf| < 5 {
      return None;
    }
    var payload := AtMost(buf[5..], Word(buf[3], buf[4]));
    if |payload| == 0 || payload[0] != CLIENT_HELLO || |payload| < 4 {
      return None;
    }
    var ext := OpenHello(payload);
    if ext.None? {
      return None;
    }
    name := WalkExtensions(ext.value);
  }

  method OpenHello(payload: Bytes) returns (ext: Option<Bytes>)
    requires |payload| >= 4 && payload[0] == CLIENT_HELLO
    ensures ext == Extensions(payload)
  {
    var hs := payload[4..];
    if |hs| < 34 {
      return None;
    }
    hs := hs[34..];
    assert hs == payload[38..] && SkipFixed(payload) == Some(hs);
    if |hs| < 1 || 1 + hs[0] > |hs| {
      return None;
    }
    hs := hs[1 + hs[0]..];
    assert AndThen(SkipFixed(payload), SkipShort) == Some(hs);
    if |hs| < 2 || 2 + Word(hs[0], hs[1]) > |hs| {
      return None;
    }
    hs := hs[2 + Word(hs[0], hs[1])..];
    assert AndThen(AndThen(SkipFixed(payload), SkipShort), SkipLong) == Some(hs);
    if |hs| < 1 || 1 + hs[0] > |hs| {
      return None;
    }
    hs := hs[1 + hs[0]..];
    if |hs| < 2 {
      return None;
    }
    return Some(AtMost(hs[2..], Word(hs[0], hs[1])));
  }

  method WalkExtensions(block: Bytes) returns (name: Option<Bytes>)
    ensures name == AndThen(ServerNameData(block), ListedHost)
  {
    var ext := block;
    while |ext| >= 4
      invariant ServerNameData(block) == ServerNameData(ext)
      decreases |ext|
    {
      var length := Word(ext[2], ext[3]);
      if 4 + length > |ext| {
        return None;
      }
      if Word(ext[0], ext[1]) == SERVER_NAME {
        name := ParseServerNames(ext[4..4 + length]);
        return;
      }
      ext := ext[4 + length..];
    }
    return None;
  }

  /** Length of the first record with its header, once the header is there. */
  function RecordTotalLength(buf: Bytes): Option<nat> {
    if |buf| < 5 then None else Some(5 + Word(buf[3], buf[4]))
  }
}
