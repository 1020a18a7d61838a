/** Encoding a ClientHello, and what the server name parser makes of encodings, of partial buffers and
    of a stream seen piece by piece. */
module SniCodec {
  import opened Sni
  import opened Text

  // ---- The encoder ----

  datatype Extension = Extension(kind: nat, data: Bytes)
  datatype Entry = Entry(kind: Byte, name: Bytes)
  datatype ClientHello = ClientHello(version: Bytes, random: Bytes, sessionId: Bytes, cipherSuites: Bytes,
                                     compression: Bytes, extensions: seq<Extension>)

  function WordBytes(n: nat): (s: Bytes)
    requires n < 65536
    ensures |s| == 2 && Word(s[0], s[1]) == n
  {
    [n / 256, n % 256]
  }

  predicate ExtensionFits(e: Extension) {
    e.kind < 65536 && |e.data| < 65536
  }

  function EncodeExtension(e: Extension): (s: Bytes)
    requires ExtensionFits(e)
    ensures |s| == 4 + |e.data| && s[4..] == e.data
  {
    WordBytes(e.kind) + WordBytes(|e.data|) + e.data
  }

  function EncodeExtensions(es: seq<Extension>): Bytes
    requires forall e | e in es :: ExtensionFits(e)
  {
    if es == [] then [] else EncodeExtension(es[0]) + EncodeExtensions(es[1..])
  }

  function EncodeEntry(e: Entry): (s: Bytes)
    requires |e.name| < 65536
    ensures |s| == 3 + |e.name|
  {
    [e.kind] + WordBytes(|e.name|) + e.name
  }

  function EncodeEntries(es: seq<Entry>): Bytes
    requires forall e | e in es :: |e.name| < 65536
  {
    if es == [] then [] else EncodeEntry(es[0]) + EncodeEntries(es[1..])
  }

  /** A server_name extension: the list length, then the entries. */
  function EncodeNames(es: seq<Entry>): Bytes
    requires (forall e | e in es :: |e.name| < 65536) && |EncodeEntries(es)| < 65536
  {
    WordBytes(|EncodeEntries(es)|) + EncodeEntries(es)
  }

  function EncodeShort(s: Bytes): Bytes
    requires |s| < 256
  {
    [|s|] + s
  }

  function EncodeLong(s: Bytes): Bytes
    requires |s| < 65536
  {
    WordBytes(|s|) + s
  }

  predicate HelloFits(h: ClientHello) {
    && |h.version| == 2 && |h.random| == 32 && |h.sessionId| < 256 && |h.cipherSuites| < 65536
    && |h.compression| < 256 && (forall e | e in h.extensions :: ExtensionFits(e))
    && |EncodeExtensions(h.extensions)| < 65536
  }

  function EncodeHello(h: ClientHello): Bytes
    requires HelloFits(h)
  {
    h.version + h.random + EncodeShort(h.sessionId) + EncodeLong(h.cipherSuites)
    + EncodeShort(h.compression) + EncodeLong(EncodeExtensions(h.extensions))
  }

  function EncodeHandshake(h: ClientHello): (s: Bytes)
    requires HelloFits(h)
  {
    var body := EncodeHello(h);
    [0x01, (|body| / 65536) % 256, (|body| / 256) % 256, |body| % 256] + body
  }

  predicate RecordFits(h: ClientHello) {
    HelloFits(h) && |EncodeHandshake(h)| < 65536
  }

  function EncodeRecord(h: ClientHello, version: Bytes): Bytes
    requires RecordFits(h) && |version| == 2
  {
    [0x16] + version + EncodeLong(EncodeHandshake(h))
  }

  // ---- What an encoding names ----

  /** The first host name of a list, when it is well formed. */
  function ChosenHost(es: seq<Entry>): Option<Bytes> {
    if es == [] then None
    else if es[0].kind == 0 then if Utf8(es[0].name) then Some(es[0].name) else None
    else ChosenHost(es[1..])
  }

  /** The data of the first server_name extension. */
  function ChosenData(es: seq<Extension>): Option<Bytes> {
    if es == [] then None
    else if es[0].kind == 0 then Some(es[0].data)
    else ChosenData(es[1..])
  }

  lemma SkipPrefix(a: Bytes, b: Bytes)
    ensures Skip(a + b, |a|) == Some(b)
  {
    assert (a + b)[|a|..] == b;
  }

  lemma SkipShortEncoding(s: Bytes, rest: Bytes)
    requires |s| < 256
    ensures SkipShort(EncodeShort(s) + rest) == Some(rest)
  {
    SkipPrefix(EncodeShort(s), rest);
  }

  lemma SkipLongEncoding(s: Bytes, rest: Bytes)
    requires |s| < 65536
    ensures SkipLong(EncodeLong(s) + rest) == Some(rest)
  {
    SkipPrefix(EncodeLong(s), rest);
  }

  lemma OpenEncoding(s: Bytes, rest: Bytes)
    requires |s| < 65536
    ensures OpenExtensions(EncodeLong(s) + rest) == Some(s)
  {
    var t := EncodeLong(s) + rest;
    assert t[2..] == s + rest;
  }

  lemma {:induction false} ServerNameDataOfEncoding(es: seq<Extension>)
    requires forall e | e in es :: ExtensionFits(e)
    ensures ServerNameData(EncodeExtensions(es)) == ChosenData(es)
  {
    if es != [] {
      var first, rest := EncodeExtension(es[0]), EncodeExtensions(es[1..]);
      ServerNameDataOfEncoding(es[1..]);
      SkipPrefix(first, rest);
      assert (first + rest)[4..|first|] == first[4..];
    }
  }

  lemma {:induction false} HostNameOfEncoding(es: seq<Entry>)
    requires forall e | e in es :: |e.name| < 65536
    ensures HostName(EncodeEntries(es)) == ChosenHost(es)
  {
    if es != [] {
      var first, rest := EncodeEntry(es[0]), EncodeEntries(es[1..]);
      HostNameOfEncoding(es[1..]);
      SkipPrefix(first, rest);
      assert (first + rest)[3..|first|] == es[0].name;
    }
  }

  /** Everything in an encoded ClientHello behind the fixed fields. */
  function AfterFixed(h: ClientHello): Bytes
    requires HelloFits(h)
  {
    EncodeShort(h.sessionId) + (EncodeLong(h.cipherSuites)
    + (EncodeShort(h.compression) + (EncodeLong(EncodeExtensions(h.extensions)) + [])))
  }

  lemma HelloFields(h: ClientHello)
    requires HelloFits(h)
    ensures EncodeHello(h) == h.version + h.random + AfterFixed(h)
  {
  }

  lemma FixedFields(h: ClientHello)
    requires HelloFits(h)
    ensures SkipFixed(EncodeHandshake(h)) == Some(AfterFixed(h))
  {
    var body, tail := EncodeHello(h), AfterFixed(h);
    HelloFields(h);
    assert body[34..] == tail;
    assert EncodeHandshake(h)[4..] == body;
    assert EncodeHandshake(h)[38..] == body[34..];
  }

  lemma ExtensionsOfEncoding(h: ClientHello)
    requires HelloFits(h)
    ensures Extensions(EncodeHandshake(h)) == Some(EncodeExtensions(h.extensions))
  {
    var block := EncodeExtensions(h.extensions);
    FixedFields(h);
    OpenEncoding(block, []);
    SkipShortEncoding(h.compression, EncodeLong(block) + []);
    SkipLongEncoding(h.cipherSuites, EncodeShort(h.compression) + (EncodeLong(block) + []));
    SkipShortEncoding(h.sessionId,
      EncodeLong(h.cipherSuites) + (EncodeShort(h.compression) + (EncodeLong(block) + [])));
  }

  lemma PayloadOfEncoding(h: ClientHello, version: Bytes, rest: Bytes)
    requires RecordFits(h) && |version| == 2
    ensures RecordPayload(EncodeRecord(h, version) + rest) == Some(EncodeHandshake(h))
    ensures RecordTotalLength(EncodeRecord(h, version) + rest) == Some(|EncodeRecord(h, version)|)
  {
    var buf := EncodeRecord(h, version) + rest;
    assert buf[5..] == EncodeHandshake(h) + rest;
  }

  /** Whatever the other fields, extensions and trailing bytes, parsing an encoding gives the host
      chosen from its first server_name extension, and none without one. */
  lemma RoundTrip(h: ClientHello, version: Bytes, rest: Bytes)
    requires RecordFits(h) && |version| == 2
    ensures ServerName(EncodeRecord(h, version) + rest) == AndThen(ChosenData(h.extensions), ListedHost)
  {
    PayloadOfEncoding(h, version, rest);
    ExtensionsOfEncoding(h);
    ServerNameDataOfEncoding(h.extensions);
  }

  lemma ListedHostOfEncoding(es: seq<Entry>)
    requires (forall e | e in es :: |e.name| < 65536) && |EncodeEntries(es)| < 65536
    ensures ListedHost(EncodeNames(es)) == ChosenHost(es)
  {
    HostNameOfEncoding(es);
    assert EncodeNames(es)[2..] == EncodeEntries(es);
  }

  lemma {:induction false} FirstServerName(before: seq<Extension>, data: Bytes, after: seq<Extension>)
    requires forall e | e in before :: e.kind != 0
    ensures ChosenData(before + [Extension(0, data)] + after) == Some(data)
  {
    var es := before + [Extension(0, data)] + after;
    if before != [] {
      FirstServerName(before[1..], data, after);
      assert es[1..] == before[1..] + [Extension(0, data)] + after;
    }
  }

  /** The name comes back from behind any other extensions and any entries that are not host names. */
  lemma NameRoundTrip(h: ClientHello, version: Bytes, rest: Bytes,
                      before: seq<Extension>, es: seq<Entry>, after: seq<Extension>)
    requires RecordFits(h) && |version| == 2
    requires (forall e | e in es :: |e.name| < 65536) && |EncodeEntries(es)| < 65536
    requires (forall e | e in before :: e.kind != 0)
    requires h.extensions == before + [Extension(0, EncodeNames(es))] + after
    ensures ServerName(EncodeRecord(h, version) + rest) == ChosenHost(es)
  {
    RoundTrip(h, version, rest);
    FirstServerName(before, EncodeNames(es), after);
    ListedHostOfEncoding(es);
  }

  lemma {:induction false} NoServerName(es: seq<Extension>)
    requires forall e | e in es :: e.kind != 0
    ensures ChosenData(es) == None
  {
    if es != [] {
      NoServerName(es[1..]);
    }
  }

  /** A hello without a server_name extension gives no name. */
  lemma NamelessRoundTrip(h: ClientHello, version: Bytes, rest: Bytes)
    requires RecordFits(h) && |version| == 2 && forall e | e in h.extensions :: e.kind != 0
    ensures ServerName(EncodeRecord(h, version) + rest) == None
  {
    RoundTrip(h, version, rest);
    NoServerName(h.extensions);
  }

  // ---- Partial buffers ----

  lemma PrefixDrop(s: Bytes, t: Bytes, n: nat)
    requires s <= t && n <= |s|
    ensures s[n..] <= t[n..]
  {
  }

  lemma PrefixAtMost(s: Bytes, t: Bytes, n: nat)
    requires s <= t
    ensures AtMost(s, n) <= AtMost(t, n)
  {
  }

  /** `f` gives a longer result, or the same, on a longer input. */
  ghost predicate Grows(f: Bytes -> Option<Bytes>) {
    forall s: Bytes, t: Bytes | s <= t && f(s).Some? :: f(t).Some? && f(s).value <= f(t).value
  }

  lemma SkipsGrow()
    ensures Grows(SkipFixed) && Grows(SkipShort) && Grows(SkipLong)
  {
    forall s: Bytes, t: Bytes | s <= t && SkipFixed(s).Some?
      ensures SkipFixed(t).Some? && SkipFixed(s).value <= SkipFixed(t).value
    {
      PrefixDrop(s, t, 38);
    }
    forall s: Bytes, t: Bytes | s <= t && SkipShort(s).Some?
      ensures SkipShort(t).Some? && SkipShort(s).value <= SkipShort(t).value
    {
      PrefixDrop(s, t, 1 + s[0] as nat);
    }
    forall s: Bytes, t: Bytes | s <= t && SkipLong(s).Some?
      ensures SkipLong(t).Some? && SkipLong(s).value <= SkipLong(t).value
    {
      PrefixDrop(s, t, 2 + Word(s[0], s[1]));
    }
  }

  lemma OpeningsGrow()
    ensures Grows(OpenExtensions) && Grows(RecordPayload)
  {
    forall s: Bytes, t: Bytes | s <= t && OpenExtensions(s).Some?
      ensures OpenExtensions(t).Some? && OpenExtensions(s).value <= OpenExtensions(t).value
    {
      PrefixDrop(s, t, 2);
      PrefixAtMost(s[2..], t[2..], Word(s[0], s[1]));
    }
    forall s: Bytes, t: Bytes | s <= t && RecordPayload(s).Some?
      ensures RecordPayload(t).Some? && RecordPayload(s).value <= RecordPayload(t).value
    {
      PrefixDrop(s, t, 5);
      PrefixAtMost(s[5..], t[5..], Word(s[3], s[4]));
    }
  }

  lemma ExtensionsGrow(s: Bytes, t: Bytes)
    requires s <= t && Extensions(s).Some?
    ensures Extensions(t).Some? && Extensions(s).value <= Extensions(t).value
  {
    SkipsGrow();
    OpeningsGrow();
  }

  lemma {:induction false} ServerNameDataStays(s: Bytes, t: Bytes)
    requires s <= t && ServerNameData(s).Some?
    ensures ServerNameData(t) == ServerNameData(s)
  {
    var n := Word(s[2], s[3]);
    assert t[4..4 + n] == s[4..4 + n];
    if Word(s[0], s[1]) != SERVER_NAME {
      PrefixDrop(s, t, 4 + n);
      ServerNameDataStays(s[4 + n..], t[4 + n..]);
    }
  }

  /** A name found in a partial buffer is the name found once more has arrived. */
  lemma LongerBufferAgrees(s: Bytes, t: Bytes)
    requires s <= t && ServerName(s).Some?
    ensures ServerName(t) == ServerName(s)
  {
    OpeningsGrow();
    ExtensionsGrow(RecordPayload(s).value, RecordPayload(t).value);
    ServerNameDataStays(Extensions(RecordPayload(s).value).value, Extensions(RecordPayload(t).value).value);
  }

  lemma FirstRecordPayload(buf: Bytes, total: nat)
    requires RecordTotalLength(buf) == Some(total) && total <= |buf|
    ensures RecordPayload(buf) == RecordPayload(buf[..total])
  {
    var first := buf[..total];
    assert first[5..] == buf[5..][..total - 5];
    assert AtMost(first[5..], total - 5) == first[5..];
    assert first[0] == buf[0] && first[3] == buf[3] && first[4] == buf[4];
  }

  /** Only the first record matters. */
  lemma FirstRecordDecides(buf: Bytes, total: nat)
    requires RecordTotalLength(buf) == Some(total) && total <= |buf|
    ensures ServerName(buf) == ServerName(buf[..total])
  {
    FirstRecordPayload(buf, total);
  }

  // ---- A stream seen piece by piece ----

  const PEEK_BUF_SIZE := 16389

  /** Enough of the first record has arrived to parse it. */
  predicate Ready(data: Bytes) {
    && RecordTotalLength(data).Some?
    && (|data| >= RecordTotalLength(data).value || |data| >= PEEK_BUF_SIZE)
  }

  /** The whole first record fits the buffer, and some peek sees it before the stream closes. */
  ghost predicate Arrives(peeks: seq<Bytes>, stream: Bytes) {
    && RecordTotalLength(stream).Some? && RecordTotalLength(stream).value <= 16389
    && [] !in peeks && exists p | p in peeks :: |p| >= RecordTotalLength(stream).value
  }

  /** A handshake whose first record is all there, or that fills the buffer. */
  predicate Enough(data: Bytes) {
    && |data| >= 5 && data[0] == 0x16
    && (|data| >= 5 + 256 * (data[3] as int) + data[4] as int || |data| == 16389)
  }

  ghost predicate IsFirstReady(peeks: seq<Bytes>, i: nat)
    requires i < |peeks|
  {
    Enough(peeks[i]) && forall k | 0 <= k < i :: peeks[k] != [] && peeks[k][0] == 0x16 && !Enough(peeks[k])
  }

  /** A handshake whose first record is not all there yet. */
  predicate Waits(data: Bytes) {
    data != [] && data[0] == HANDSHAKE && !Ready(data)
  }

  /** Peek again until the first record is there, the stream closes, it is not a handshake, or the
      peeks end, which is the time limit. */
  method PeekUntilReady(peeks: seq<Bytes>) returns (name: Option<Bytes>, ghost at: nat)
    ensures at <= |peeks| && (forall k | 0 <= k < at :: Waits(peeks[k])) && (at < |peeks| ==> !Waits(peeks[at]))
    ensures name == if at < |peeks| then ServerName(peeks[at]) else None
  {
    for i := 0 to |peeks|
      invariant forall k | 0 <= k < i :: Waits(peeks[k])
    {
      var data := peeks[i];
      if data == [] {
        return None, i;
      }
      if data[0] != HANDSHAKE {
        return None, i;
      }
      if Ready(data) {
        name := ParseClientHello(data);
        return name, i;
      }
    }
    return None, |peeks|;
  }

  lemma EnoughIff(data: Bytes)
    requires |data| <= 16389
    ensures Enough(data) <==> data != [] && data[0] == 0x16 && Ready(data)
  {
  }

  lemma FirstReadyDecides(peeks: seq<Bytes>, at: nat, i: nat)
    requires forall p | p in peeks :: |p| <= 16389
    requires at <= |peeks| && (forall k | 0 <= k < at :: Waits(peeks[k])) && (at < |peeks| ==> !Waits(peeks[at]))
    requires i < |peeks| && IsFirstReady(peeks, i)
    ensures i == at
  {
    EnoughIff(peeks[i]);
    if at < i {
      EnoughIff(peeks[at]);
      assert false;
    }
  }

  lemma ArrivalIsSeen(peeks: seq<Bytes>, stream: Bytes, at: nat)
    requires forall p | p in peeks :: p <= stream
    requires at <= |peeks| && (forall k | 0 <= k < at :: Waits(peeks[k])) && (at < |peeks| ==> !Waits(peeks[at]))
    requires Arrives(peeks, stream)
    ensures at < |peeks| && ServerName(peeks[at]) == ServerName(stream)
  {
    var m :| 0 <= m < |peeks| && |peeks[m]| >= RecordTotalLength(stream).value;
    assert peeks[m] in peeks && !Waits(peeks[m]);
    assert peeks[at] in peeks;
    if peeks[at][0] == HANDSHAKE {
      ReadyIsFaithful(peeks[at], stream);
    }
  }

  /** However the stream is cut into pieces, a name that is found is the stream's, it is found if the first record
      arrives, and it is that of the first peek that has the whole record or fills the buffer. */
  method PeekServerName(peeks: seq<Bytes>, ghost stream: Bytes) returns (name: Option<Bytes>)
    requires forall p | p in peeks :: p <= stream && |p| <= 16389
    ensures name.Some? ==> name == ServerName(stream)
    ensures Arrives(peeks, stream) ==> name == ServerName(stream)
    ensures forall i | 0 <= i < |peeks| && IsFirstReady(peeks, i) :: name == ServerName(peeks[i])
  {
    ghost var at;
    name, at := PeekUntilReady(peeks);
    if name.Some? {
      LongerBufferAgrees(peeks[at], stream);
    }
    if Arrives(peeks, stream) {
      ArrivalIsSeen(peeks, stream, at);
    }
    forall i | 0 <= i < |peeks| && IsFirstReady(peeks, i) ensures i == at {
      FirstReadyDecides(peeks, at, i);
    }
  }

  lemma ReadyIsFaithful(data: Bytes, stream: Bytes)
    requires data <= stream && Ready(data)
    ensures ServerName(data).Some? ==> ServerName(data) == ServerName(stream)
    ensures RecordTotalLength(stream) == RecordTotalLength(data)
    ensures RecordTotalLength(stream).value <= |data| ==> ServerName(data) == ServerName(stream)
  {
    var total := RecordTotalLength(data).value;
    if ServerName(data).Some? {
      LongerBufferAgrees(data, stream);
    }
    if total <= |data| {
      FirstRecordDecides(data, total);
      FirstRecordDecides(stream, total);
      assert data[..total] == stream[..total];
    }
  }

  // ---- The test encoder ----

  function Zeros(n: nat): Bytes {
    seq(n, _ => 0)
  }

  function OneName(name: Bytes): (es: seq<Entry>)
    requires |name| + 5 < 65536
    ensures forall e | e in es :: |e.name| < 65536
    ensures EncodeEntries(es) == EncodeEntry(Entry(0, name))
    ensures ChosenHost(es) == if Utf8(name) then Some(name) else None
  {
    var es := [Entry(0, name)];
    assert EncodeEntries(es[1..]) == [];
    es
  }

  function NameExtension(name: Bytes): (e: Extension)
    requires |name| + 5 < 65536
    ensures ExtensionFits(e) && |e.data| == |name| + 5
  {
    Extension(0, EncodeNames(OneName(name)))
  }

  /** The name and the padding leave every length field large enough. */
  predicate SampleFits(sni: Option<Bytes>, pad: nat) {
    51 + (if sni.Some? then |sni.value| + 9 else 0) + (if pad > 0 then pad + 4 else 0) < 65536
  }

  function NameExtensions(sni: Option<Bytes>): (es: seq<Extension>)
    requires sni.Some? ==> |sni.value| + 5 < 65536
    ensures forall e | e in es :: ExtensionFits(e)
  {
    if sni.Some? then [NameExtension(sni.value)] else []
  }

  function PaddingExtensions(pad: nat): (es: seq<Extension>)
    requires pad < 65536
    ensures forall e | e in es :: ExtensionFits(e)
  {
    if pad > 0 then [Extension(0x15, Zeros(pad))] else []
  }

  function SampleExtensions(sni: Option<Bytes>, pad: nat): (es: seq<Extension>)
    requires SampleFits(sni, pad)
    ensures forall e | e in es :: ExtensionFits(e)
  {
    [] + NameExtensions(sni) + PaddingExtensions(pad) + [Extension(0x17, [])]
  }

  /** A ClientHello with one cipher suite, the given name, `pad` bytes of padding and one more extension. */
  function SampleHello(sni: Option<Bytes>, pad: nat): ClientHello
    requires SampleFits(sni, pad)
  {
    ClientHello([3, 3], Zeros(32), [], [0x13, 0x01], [0], SampleExtensions(sni, pad))
  }

  lemma {:induction false} EncodeAppend(a: seq<Extension>, b: seq<Extension>)
    requires (forall e | e in a :: ExtensionFits(e)) && (forall e | e in b :: ExtensionFits(e))
    ensures EncodeExtensions(a + b) == EncodeExtensions(a) + EncodeExtensions(b)
  {
    if a == [] {
      assert a + b == b;
    } else {
      EncodeAppend(a[1..], b);
      assert (a + b)[1..] == a[1..] + b;
    }
  }

  lemma AppendOne(es: seq<Extension>, e: Extension)
    requires (forall x | x in es :: ExtensionFits(x)) && ExtensionFits(e)
    ensures EncodeExtensions(es + [e]) == EncodeExtensions(es) + EncodeExtension(e)
  {
    EncodeAppend(es, [e]);
    assert EncodeExtensions([e][1..]) == [];
  }

  /** One more extension: its type, the length of its data, its data. */
  method AppendExtension(exts: Bytes, kind: nat, data: Bytes, ghost es: seq<Extension>) returns (r: Bytes)
    requires (forall e | e in es :: ExtensionFits(e)) && exts == EncodeExtensions(es)
    requires ExtensionFits(Extension(kind, data))
    ensures r == EncodeExtensions(es + [Extension(kind, data)])
  {
    AppendOne(es, Extension(kind, data));
    r := exts + WordBytes(kind);
    r := r + WordBytes(|data|);
    r := r + data;
  }

  method NameData(name: Bytes) returns (data: Bytes)
    requires |name| + 5 < 65536
    ensures data == NameExtension(name).data
  {
    data := WordBytes(3 + |name|);
    data := data + [HOST_NAME];
    data := data + WordBytes(|name|);
    data := data + name;
  }

  method AppendName(exts: Bytes, sni: Option<Bytes>, ghost es: seq<Extension>) returns (r: Bytes)
    requires (forall e | e in es :: ExtensionFits(e)) && exts == EncodeExtensions(es)
    requires sni.Some? ==> |sni.value| + 5 < 65536
    ensures r == EncodeExtensions(es + NameExtensions(sni))
  {
    r := exts;
    if sni.Some? {
      var data := NameData(sni.value);
      r := AppendExtension(r, SERVER_NAME, data, es);
    } else {
      assert es + [] == es;
    }
  }

  method AppendPadding(exts: Bytes, pad: nat, ghost es: seq<Extension>) returns (r: Bytes)
    requires (forall e | e in es :: ExtensionFits(e)) && exts == EncodeExtensions(es) && pad < 65536
    ensures r == EncodeExtensions(es + PaddingExtensions(pad))
  {
    r := exts;
    if pad > 0 {
      r := AppendExtension(r, 0x15, Zeros(pad), es);
    } else {
      assert es + [] == es;
    }
  }

  /** The extensions of the sample, appended one after the other. */
  method BuildExtensions(sni: Option<Bytes>, pad: nat) returns (exts: Bytes)
    requires SampleFits(sni, pad)
    ensures exts == EncodeExtensions(SampleExtensions(sni, pad))
  {
    exts := AppendName([], sni, []);
    exts := AppendPadding(exts, pad, [] + NameExtensions(sni));
    exts := AppendExtension(exts, 0x17, [], [] + NameExtensions(sni) + PaddingExtensions(pad));
  }

  lemma LengthAfterOne(es: seq<Extension>, e: Extension)
    requires (forall x | x in es :: ExtensionFits(x)) && ExtensionFits(e)
    ensures |EncodeExtensions(es + [e])| == |EncodeExtensions(es)| + 4 + |e.data|
  {
    AppendOne(es, e);
  }

  lemma NamesLength(sni: Option<Bytes>, es: seq<Extension>)
    requires (sni.Some? ==> |sni.value| + 5 < 65536) && es == [] + NameExtensions(sni)
    ensures |EncodeExtensions(es)| == if sni.Some? then |sni.value| + 9 else 0
  {
    if sni.Some? {
      LengthAfterOne([], NameExtension(sni.value));
    }
  }

  lemma SampleExtensionsLength(sni: Option<Bytes>, pad: nat)
    requires SampleFits(sni, pad)
    ensures |EncodeExtensions(SampleExtensions(sni, pad))|
      == 4 + (if sni.Some? then |sni.value| + 9 else 0) + if pad > 0 then pad + 4 else 0
  {
    NamesLength(sni, [] + NameExtensions(sni));
    LengthAfterPadding([] + NameExtensions(sni), pad);
  }

  lemma LengthAfterPadding(es: seq<Extension>, pad: nat)
    requires (forall e | e in es :: ExtensionFits(e)) && pad < 65536
    ensures |EncodeExtensions(es + PaddingExtensions(pad) + [Extension(0x17, [])])|
      == |EncodeExtensions(es)| + 4 + if pad > 0 then pad + 4 else 0
  {
    AppendOne(es + PaddingExtensions(pad), Extension(0x17, []));
    if pad > 0 {
      AppendOne(es, Extension(0x15, Zeros(pad)));
    } else {
      assert es + PaddingExtensions(pad) == es;
    }
  }

  lemma SampleLength(sni: Option<Bytes>, pad: nat)
    requires SampleFits(sni, pad)
    ensures RecordFits(SampleHello(sni, pad))
  {
    SampleExtensionsLength(sni, pad);
  }

  /** The whole sample: the body, the handshake header before it, the record header before that. */
  method BuildClientHello(sni: Option<Bytes>, pad: nat) returns (record: Bytes)
    requires SampleFits(sni, pad)
    ensures RecordFits(SampleHello(sni, pad)) && record == EncodeRecord(SampleHello(sni, pad), [3, 1])
  {
    SampleLength(sni, pad);
    var exts := BuildExtensions(sni, pad);
    var body := [3, 3] + Zeros(32) + [0] + ([0x00, 0x02] + [0x13, 0x01]) + [1, 0];
    body := body + (WordBytes(|exts|) + exts);
    SampleBody(SampleHello(sni, pad), exts, body);
    var handshake := [CLIENT_HELLO, (|body| / 65536) % 256, (|body| / 256) % 256, |body| % 256] + body;
    record := [HANDSHAKE] + [3, 1] + (WordBytes(|handshake|) + handshake);
  }

  lemma SampleBody(h: ClientHello, exts: Bytes, body: Bytes)
    requires HelloFits(h) && h.version == [3, 3] && h.random == Zeros(32) && h.sessionId == []
    requires h.cipherSuites == [0x13, 0x01] && h.compression == [0] && exts == EncodeExtensions(h.extensions)
    requires body == [3, 3] + Zeros(32) + [0] + ([0x00, 0x02] + [0x13, 0x01]) + [1, 0] + (WordBytes(|exts|) + exts)
    ensures body == EncodeHello(h)
  {
    assert EncodeShort(h.sessionId) == [0];
    assert EncodeLong(h.cipherSuites) == [0x00, 0x02] + [0x13, 0x01];
    assert EncodeShort(h.compression) == [1, 0];
  }

  /** Parsing the sample gives back its name, or none if it has none or the name is not UTF-8. */
  lemma SampleRoundTrip(sni: Option<Bytes>, pad: nat)
    requires SampleFits(sni, pad) && RecordFits(SampleHello(sni, pad))
    ensures ServerName(EncodeRecord(SampleHello(sni, pad), [3, 1]))
      == if sni.Some? && Utf8(sni.value) then sni else None
  {
    var h, after := SampleHello(sni, pad), PaddingExtensions(pad) + [Extension(0x17, [])];
    assert EncodeRecord(h, [3, 1]) + [] == EncodeRecord(h, [3, 1]);
    if sni.Some? {
      var es := OneName(sni.value);
      assert h.extensions == [] + [Extension(0, EncodeNames(es))] + after;
      NameRoundTrip(h, [3, 1], [], [], es, after);
    } else {
      NamelessRoundTrip(h, [3, 1], []);
    }
  }
}
