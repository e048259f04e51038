/** The client's reports: each fills a buffer with a header and a payload, and writes it to the
    message queue. */
module SubtitleReport {
  import opened Bytes
  import opened Framing

  const SUBTITLE_TOTAL_TRACK: nat := 0x53544F54
  const SUBTITLE_START_PTS: nat := 0x53505453
  const SUBTITLE_RENDER_TIME: nat := 0x53524454
  const SUBTITLE_SUB_TYPE: nat := 0x53545950
  const SUBTITLE_TYPE_STRING: nat := 0x54505352
  const SUBTITLE_LANG_STRING: nat := 0x4C475352
  const SUBTITLE_SUB_DATA: nat := 0x504C4454
  const SUBTITLE_RESET_SERVER: nat := 0x43545244
  const SUBTITLE_EXIT_SERVER: nat := 0x43444558

  /** `reset\n` and `exit\n` with their terminators. */
  const RESET_TEXT: seq<byte> := [0x72, 0x65, 0x73, 0x65, 0x74, 0x0A, 0]
  const EXIT_TEXT: seq<byte> := [0x65, 0x78, 0x69, 0x74, 0x0A, 0]

  datatype Report =
    | TotalTracks(num: int)
    | SubType(kind: int)
    | RenderTime(timeUs: int)
    | StartPts(pts: int)
    | TypeString(text: seq<byte>)
    | LanguageString(lang: seq<byte>)
    | Data(data: seq<byte>)
    | ResetServer
    | ExitServer

  predicate Int32(v: int) { -0x8000_0000 <= v < 0x8000_0000 }

  predicate Int64(v: int) { -0x8000_0000_0000_0000 <= v < 0x8000_0000_0000_0000 }

  /** A C string's bytes: no terminator among them. */
  predicate CString(s: seq<byte>) {
    |s| < MAX_INT && 0 !in s
  }

  /** The arguments that the types of the client interface admit. */
  predicate Wellformed(r: Report) {
    match r
    case TotalTracks(n) => Int32(n)
    case SubType(k) => Int32(k)
    case RenderTime(t) => Int64(t)
    case StartPts(p) => Int64(p)
    case TypeString(s) => CString(s)
    case LanguageString(s) => CString(s)
    case Data(d) => |d| <= MAX_INT
    case ResetServer => true
    case ExitServer => true
  }

  /** The message that a report sends. */
  function MessageOf(r: Report): (m: Message) {
    match r
    case TotalTracks(n) => Message(SUBTITLE_TOTAL_TRACK, Word(n))
    case SubType(k) => Message(SUBTITLE_SUB_TYPE, Word(k))
    case RenderTime(t) => Message(SUBTITLE_RENDER_TIME, LongWord(t))
    case StartPts(p) => Message(SUBTITLE_START_PTS, LongWord(p))
    case TypeString(s) => Message(SUBTITLE_TYPE_STRING, s + [0])
    case LanguageString(s) => Message(SUBTITLE_LANG_STRING, s + [0])
    case Data(d) => Message(SUBTITLE_SUB_DATA, d)
    case ResetServer => Message(SUBTITLE_RESET_SERVER, RESET_TEXT)
    case ExitServer => Message(SUBTITLE_EXIT_SERVER, EXIT_TEXT)
  }

  function Messages(rs: seq<Report>): (ms: seq<Message>)
    ensures |ms| == |rs|
    ensures forall i :: 0 <= i < |rs| ==> ms[i] == MessageOf(rs[i])
  {
    if rs == [] then [] else [MessageOf(rs[0])] + Messages(rs[1..])
  }

  /** `memcpy` to a place in a buffer. */
  method Copy(buf: array<byte>, at: nat, src: seq<byte>)
    requires at + |src| <= buf.Length
    modifies buf
    ensures buf[..at + |src|] == old(buf[..at]) + src
    ensures forall k :: at + |src| <= k < buf.Length ==> buf[k] == old(buf[k])
  {
    for i := 0 to |src|
      invariant buf[..at + i] == old(buf[..at]) + src[..i]
      invariant forall k :: at + i <= k < buf.Length ==> buf[k] == old(buf[k])
    {
      buf[at + i] := src[i];
      assert buf[..at + i + 1] == buf[..at + i] + [src[i]];
    }
  }

  lemma {:induction false} FramesAppend(sessionId: int, ms: seq<Message>, m: Message)
    ensures Frames(sessionId, ms + [m]) == Frames(sessionId, ms) + Frame(sessionId, m)
  {
    if ms == [] {
      assert [m][1..] == [] && [] + [m] == [m];
      assert Frames(sessionId, [m]) == Frame(sessionId, m) + Frames(sessionId, []);
    } else {
      assert (ms + [m])[1..] == ms[1..] + [m];
      FramesAppend(sessionId, ms[1..], m);
    }
  }

  class SubSource {
    const sId: int
    /** All bytes that were written to the message queue. */
    var written: seq<byte>
    ghost var sent: seq<Report>

    /** The queue has received whole frames, one for each report made. */
    ghost predicate Valid()
      reads this
    {
      && (forall i :: 0 <= i < |sent| ==> Wellformed(sent[i]))
      && written == Frames(sId, Messages(sent))
    }

    constructor (id: int)
      ensures Valid() && sId == id && sent == []
    {
      sId, written, sent := id, [], [];
    }

    /** The header in the first bytes of a buffer. */
    method MakeHeader(buf: array<byte>, t: nat, payloadSize: int)
      requires buf.Length >= HEADER_SIZE
      modifies buf
      ensures buf[..HEADER_SIZE] == Words([START_FLAG, sId, MAGIC_FLAG, payloadSize, t])
      ensures forall k :: HEADER_SIZE <= k < buf.Length ==> buf[k] == old(buf[k])
    {
      Copy(buf, 0, Word(START_FLAG));
      Copy(buf, 4, Word(sId));
      Copy(buf, 8, Word(MAGIC_FLAG));
      Copy(buf, 12, Word(payloadSize));
      Copy(buf, 16, Word(t));
      FiveWords(START_FLAG, sId, MAGIC_FLAG, payloadSize, t);
    }

    method SendDataLocked(data: seq<byte>)
      modifies this`written
      ensures written == old(written) + data
    {
      written := written + data;
    }

    /** All reports but data: the header and a short payload in one buffer and one write. */
    method SendReport(r: Report)
      requires Valid() && Wellformed(r) && !r.Data?
      modifies this
      ensures Valid() && sent == old(sent) + [r]
      ensures written == old(written) + Frame(sId, MessageOf(r))
    {
      var m := MessageOf(r);
      var buffer := new byte[HEADER_SIZE + |m.payload|](_ => 0);
      MakeHeader(buffer, m.pkgType, |m.payload|);
      Copy(buffer, HEADER_SIZE, m.payload);
      SendDataLocked(buffer[..HEADER_SIZE + |m.payload|]);
      OneMore(sId, sent, r);
      sent := sent + [r];
    }

    /** Payload data follow their header in a second write. */
    method SendData(data: seq<byte>)
      requires Valid() && |data| <= MAX_INT
      modifies this
      ensures Valid() && sent == old(sent) + [Data(data)]
      ensures written == old(written) + Frame(sId, MessageOf(Data(data)))
    {
      var buffer := new byte[64](_ => 0);
      MakeHeader(buffer, SUBTITLE_SUB_DATA, |data|);
      SendDataLocked(buffer[..HEADER_SIZE]);
      SendDataLocked(data);
      OneMore(sId, sent, Data(data));
      sent := sent + [Data(data)];
    }
  }

  lemma {:induction false} MessagesAppend(rs: seq<Report>, r: Report)
    ensures Messages(rs + [r]) == Messages(rs) + [MessageOf(r)]
  {
  }

  lemma OneMore(sessionId: int, rs: seq<Report>, r: Report)
    ensures Frames(sessionId, Messages(rs + [r])) == Frames(sessionId, Messages(rs)) + Frame(sessionId, MessageOf(r))
  {
    MessagesAppend(rs, r);
    FramesAppend(sessionId, Messages(rs), MessageOf(r));
  }

  lemma FiveWords(a: int, b: int, c: int, d: int, e: int)
    ensures Words([a, b, c, d, e]) == Word(a) + Word(b) + Word(c) + Word(d) + Word(e)
  {
    assert [a, b, c, d, e] == [a] + [b] + [c] + [d] + [e];
    WordsAppend([a] + [b] + [c] + [d], [e]);
    WordsAppend([a] + [b] + [c], [d]);
    WordsAppend([a] + [b], [c]);
    WordsAppend([a], [b]);
    OneWord(a); OneWord(b); OneWord(c); OneWord(d); OneWord(e);
  }

  lemma OneWord(a: int)
    ensures Words([a]) == Word(a)
  {
    assert [a][1..] == [];
  }

}
