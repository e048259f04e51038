/** What an external source learns and queues from the packages it hears, and what that means
    in terms of the client's reports. */
module SourceSpec {
  import opened Bytes
  import opened Framing
  import opened SubtitleReport

  /** What the source knows about its stream; -1 is unknown. */
  datatype Info = Info(total: int, kind: int, renderTimeUs: nat, startPts: nat, language: seq<byte>)

  const UNKNOWN: Info := Info(-1, -1, 0, 0, [])

  /** Data are kept only once the track total or the type is known. */
  predicate Open(i: Info) {
    i.total != -1 || i.kind != -1
  }

  /** The bytes of a C string. */
  function UpToNul(b: seq<byte>): (s: seq<byte>)
    ensures s <= b && 0 !in s
  {
    if b == [] || b[0] == 0 then [] else [b[0]] + UpToNul(b[1..])
  }

  function LongAt4(buf: seq<byte>): (v: nat)
    requires |buf| >= 12
    ensures v < TWO_64
  {
    PeekWord(buf[8..]) * TWO_32 + PeekWord(buf[4..])
  }

  /** The package has the bytes that its type makes the source read. */
  predicate Readable(buf: seq<byte>) {
    && |buf| >= 4
    && (PeekWord(buf) in {SUBTITLE_RENDER_TIME, SUBTITLE_START_PTS} ==> |buf| >= 12)
    && (PeekWord(buf) in {SUBTITLE_TOTAL_TRACK, SUBTITLE_SUB_TYPE} ==> |buf| >= 8)
    && (PeekWord(buf) == SUBTITLE_LANG_STRING ==> 0 in buf[4..])
  }

  /** A package as the source reads it. */
  datatype Package =
    | TotalPackage(total: int)
    | TypePackage(kind: int)
    | TimePackage(timeUs: nat)
    | StartPackage(pts: nat)
    | LanguagePackage(language: seq<byte>)
    | DataPackage(data: seq<byte>)
    | IgnoredPackage
    | UnknownPackage(buf: seq<byte>)

  function Parse(buf: seq<byte>): Package
    requires Readable(buf)
  {
    var t := PeekWord(buf);
    if t == SUBTITLE_RENDER_TIME then TimePackage(LongAt4(buf))
    else if t == SUBTITLE_TOTAL_TRACK then TotalPackage(Signed(PeekWord(buf[4..])))
    else if t == SUBTITLE_START_PTS then StartPackage(LongAt4(buf))
    else if t == SUBTITLE_SUB_TYPE then TypePackage(Signed(PeekWord(buf[4..])))
    else if t == SUBTITLE_SUB_DATA then DataPackage(buf[4..])
    else if t == SUBTITLE_LANG_STRING then LanguagePackage(UpToNul(buf[4..]))
    else if t == SUBTITLE_TYPE_STRING || t == SUBTITLE_RESET_SERVER || t == SUBTITLE_EXIT_SERVER then IgnoredPackage
    else UnknownPackage(buf)
  }

  function Learn(i: Info, p: Package): Info {
    match p
    case TotalPackage(n) => i.(total := n)
    case TypePackage(k) => i.(kind := k)
    case TimePackage(t) => i.(renderTimeUs := t)
    case StartPackage(s) => i.(startPts := s)
    case LanguagePackage(l) => i.(language := l)
    case _ => i
  }

  /** The bytes queued from a package; one of an unknown type is queued whole. */
  function Queued(i: Info, p: Package): seq<byte> {
    match p
    case DataPackage(d) => if Open(i) then d else []
    case UnknownPackage(buf) => buf
    case _ => []
  }

  /** A package of a type that is not one of the nine is queued whole, known stream or not, and one
      of the three types without a use is ignored. */
  lemma OtherPackages(i: Info, buf: seq<byte>)
    requires Readable(buf)
    requires PeekWord(buf) !in {SUBTITLE_RENDER_TIME, SUBTITLE_TOTAL_TRACK, SUBTITLE_START_PTS, SUBTITLE_SUB_TYPE,
                                SUBTITLE_SUB_DATA, SUBTITLE_LANG_STRING}
    ensures Learn(i, Parse(buf)) == i
    ensures Queued(i, Parse(buf)) ==
              if PeekWord(buf) in {SUBTITLE_TYPE_STRING, SUBTITLE_RESET_SERVER, SUBTITLE_EXIT_SERVER} then [] else buf
  {
  }

  function InfoAfter(ps: seq<Package>): Info {
    if ps == [] then UNKNOWN else Learn(InfoAfter(ps[..|ps|-1]), ps[|ps|-1])
  }

  /** All bytes that were queued. */
  function QueuedFrom(ps: seq<Package>): seq<byte> {
    if ps == [] then []
    else QueuedFrom(ps[..|ps|-1]) + Queued(InfoAfter(ps[..|ps|-1]), ps[|ps|-1])
  }

  lemma OneMoreHeard(ps: seq<Package>, p: Package)
    ensures InfoAfter(ps + [p]) == Learn(InfoAfter(ps), p)
    ensures QueuedFrom(ps + [p]) == QueuedFrom(ps) + Queued(InfoAfter(ps), p)
  {
    assert (ps + [p])[..|ps|] == ps;
  }

  // ---- The past of a source ----

  /** The packages heard, and what was known and queued before the first and after each. */
  datatype Story = Story(heard: seq<Package>, infos: seq<Info>, queues: seq<seq<byte>>)

  const NEW_STORY: Story := Story([], [UNKNOWN], [[]])

  predicate Steady(s: Story) {
    |s.infos| == |s.heard| + 1 && |s.queues| == |s.heard| + 1
  }

  /** What package `k` changed. */
  predicate StoryStep(s: Story, k: nat)
    requires Steady(s) && k < |s.heard|
  {
    && s.infos[k + 1] == Learn(s.infos[k], s.heard[k])
    && s.queues[k + 1] == s.queues[k] + Queued(s.infos[k], s.heard[k])
  }

  predicate TrueStory(s: Story) {
    && Steady(s) && s.infos[0] == UNKNOWN && s.queues[0] == []
    && forall k {:trigger StoryStep(s, k)} :: 0 <= k < |s.heard| ==> StoryStep(s, k)
  }

  /** One more package. */
  function Told(s: Story, p: Package): (t: Story)
    requires Steady(s)
    ensures Steady(t)
  {
    var n := |s.heard|;
    Story(s.heard + [p], s.infos + [Learn(s.infos[n], p)], s.queues + [s.queues[n] + Queued(s.infos[n], p)])
  }

  lemma ToldIsTrue(s: Story, p: Package)
    requires TrueStory(s)
    ensures TrueStory(Told(s, p))
  {
    var t := Told(s, p);
    forall k | 0 <= k < |t.heard| ensures StoryStep(t, k) {
      if k < |s.heard| {
        assert StoryStep(s, k);
      }
    }
  }

  /** A true story ends with what the packages tell. */
  lemma {:induction false} StoryEnds(s: Story, k: nat)
    requires TrueStory(s) && k <= |s.heard|
    ensures s.infos[k] == InfoAfter(s.heard[..k]) && s.queues[k] == QueuedFrom(s.heard[..k])
  {
    if k > 0 {
      StoryEnds(s, k - 1);
      assert StoryStep(s, k - 1);
      assert s.heard[..k] == s.heard[..k-1] + [s.heard[k-1]];
      OneMoreHeard(s.heard[..k-1], s.heard[k-1]);
    }
  }

  // ---- In terms of the reports ----

  predicate AllWellformed(rs: seq<Report>) {
    forall i :: 0 <= i < |rs| ==> Wellformed(rs[i])
  }

  /** The last total reported; -1 before the first. */
  function LastTotal(rs: seq<Report>): int {
    if rs == [] then -1
    else if rs[|rs|-1].TotalTracks? then rs[|rs|-1].num
    else LastTotal(rs[..|rs|-1])
  }

  function LastType(rs: seq<Report>): int {
    if rs == [] then -1
    else if rs[|rs|-1].SubType? then rs[|rs|-1].kind
    else LastType(rs[..|rs|-1])
  }

  function LastRenderTime(rs: seq<Report>): int {
    if rs == [] then 0
    else if rs[|rs|-1].RenderTime? then rs[|rs|-1].timeUs
    else LastRenderTime(rs[..|rs|-1])
  }

  function LastStartPts(rs: seq<Report>): int {
    if rs == [] then 0
    else if rs[|rs|-1].StartPts? then rs[|rs|-1].pts
    else LastStartPts(rs[..|rs|-1])
  }

  function LastLanguage(rs: seq<Report>): seq<byte> {
    if rs == [] then []
    else if rs[|rs|-1].LanguageString? then rs[|rs|-1].lang
    else LastLanguage(rs[..|rs|-1])
  }

  /** The data sent while the last total or the last type reported was not -1. */
  function KeptData(rs: seq<Report>): seq<byte> {
    if rs == [] then []
    else
      var before, r := rs[..|rs|-1], rs[|rs|-1];
      if r.Data? && (LastTotal(before) != -1 || LastType(before) != -1) then KeptData(before) + r.data
      else KeptData(before)
  }

  /** All data sent. */
  function AllData(rs: seq<Report>): seq<byte> {
    if rs == [] then []
    else if rs[|rs|-1].Data? then AllData(rs[..|rs|-1]) + rs[|rs|-1].data
    else AllData(rs[..|rs|-1])
  }

  predicate AllReadable(bufs: seq<seq<byte>>) {
    forall i :: 0 <= i < |bufs| ==> Readable(bufs[i])
  }

  function ParseAll(bufs: seq<seq<byte>>): (ps: seq<Package>)
    requires AllReadable(bufs)
    ensures |ps| == |bufs|
    ensures forall i :: 0 <= i < |bufs| ==> ps[i] == Parse(bufs[i])
  {
    if bufs == [] then [] else [Parse(bufs[0])] + ParseAll(bufs[1..])
  }

  /** What a report is to the source. */
  function PackageOf(r: Report): Package {
    match r
    case TotalTracks(n) => TotalPackage(n)
    case SubType(k) => TypePackage(k)
    case RenderTime(t) => TimePackage(t % TWO_64)
    case StartPts(p) => StartPackage(p % TWO_64)
    case LanguageString(s) => LanguagePackage(s)
    case Data(d) => DataPackage(d)
    case _ => IgnoredPackage
  }

  function PackagesOf(rs: seq<Report>): (ps: seq<Package>)
    ensures |ps| == |rs|
  {
    if rs == [] then [] else [PackageOf(rs[0])] + PackagesOf(rs[1..])
  }

  lemma {:induction false} PackagesAppend(rs: seq<Report>, r: Report)
    ensures PackagesOf(rs + [r]) == PackagesOf(rs) + [PackageOf(r)]
  {
    if rs == [] {
      assert [] + [r] == [r] && [r][1..] == [];
      assert PackagesOf([r]) == [PackageOf(r)] + PackagesOf([]);
    } else {
      assert (rs + [r])[1..] == rs[1..] + [r];
      PackagesAppend(rs[1..], r);
    }
  }

  lemma DeliveryWords(m: Message)
    requires m.pkgType < TWO_32
    ensures PeekWord(Delivery(m)) == m.pkgType && Delivery(m)[4..] == m.payload
  {
    WordRoundTrip(m.pkgType, m.payload);
  }

  lemma {:induction false} UpToNulOf(s: seq<byte>)
    requires 0 !in s
    ensures UpToNul(s + [0]) == s
  {
    if s != [] {
      assert (s + [0])[1..] == s[1..] + [0];
      UpToNulOf(s[1..]);
    } else {
      assert s + [0] == [0];
    }
  }

  lemma ShortValue(m: Message, v: int)
    requires m.pkgType < TWO_32 && m.payload == Word(v) && Int32(v)
    ensures |Delivery(m)| >= 8 && Signed(PeekWord(Delivery(m)[4..])) == v
  {
    DeliveryWords(m);
    WordRoundTrip(v, []);
    assert Word(v) + [] == Word(v);
    SignedOfWord(v);
  }

  lemma SignedOfWord(v: int)
    requires Int32(v)
    ensures Signed(v % TWO_32) == v
  {
    if v < 0 {
      assert v % TWO_32 == v + TWO_32;
    }
  }

  lemma LongValue(m: Message, v: int)
    requires m.pkgType < TWO_32 && m.payload == LongWord(v)
    ensures |Delivery(m)| >= 12 && LongAt4(Delivery(m)) == v % TWO_64
  {
    DeliveryWords(m);
    LongWordRoundTrip(v, []);
    var b := Delivery(m);
    assert LongWord(v) + [] == LongWord(v) && b[8..] == b[4..][4..];
  }

  /** Every value reported arrives unchanged: 64-bit values too, as unsigned ones. */
  lemma ReportArrives(r: Report)
    requires Wellformed(r)
    ensures Readable(Delivery(MessageOf(r)))
    ensures Parse(Delivery(MessageOf(r))) == PackageOf(r)
  {
    var m := MessageOf(r);
    DeliveryWords(m);
    match r
    case TotalTracks(n) => ShortValue(m, n);
    case SubType(k) => ShortValue(m, k);
    case RenderTime(t) => LongValue(m, t);
    case StartPts(p) => LongValue(m, p);
    case LanguageString(s) => UpToNulOf(s); assert (s + [0])[|s|] == 0;
    case _ =>
  }

  /** The packages that the decoder delivers for some reports are read as those reports. */
  lemma {:induction false} ReportsArrive(rs: seq<Report>)
    requires AllWellformed(rs)
    ensures AllReadable(Deliveries(Messages(rs)))
    ensures ParseAll(Deliveries(Messages(rs))) == PackagesOf(rs)
  {
    if rs != [] {
      ReportArrives(rs[0]);
      ReportsArrive(rs[1..]);
      var bufs := Deliveries(Messages(rs));
      assert bufs[0] == Delivery(MessageOf(rs[0])) && bufs[1..] == Deliveries(Messages(rs[1..]));
      forall i | 0 <= i < |bufs| ensures Readable(bufs[i]) {
        if i > 0 {
          assert bufs[i] == bufs[1..][i - 1];
        }
      }
    }
  }

  lemma PackagesSplit(rs: seq<Report>)
    requires rs != []
    ensures PackagesOf(rs) == PackagesOf(rs[..|rs|-1]) + [PackageOf(rs[|rs|-1])]
  {
    assert rs == rs[..|rs|-1] + [rs[|rs|-1]];
    PackagesAppend(rs[..|rs|-1], rs[|rs|-1]);
  }

  /** What the source knows is what was reported last. */
  lemma {:induction false} InfoIsTheLastReported(rs: seq<Report>)
    ensures InfoAfter(PackagesOf(rs)) ==
            Info(LastTotal(rs), LastType(rs), LastRenderTime(rs) % TWO_64, LastStartPts(rs) % TWO_64, LastLanguage(rs))
  {
    if rs != [] {
      InfoIsTheLastReported(rs[..|rs|-1]);
      PackagesSplit(rs);
      OneMoreHeard(PackagesOf(rs[..|rs|-1]), PackageOf(rs[|rs|-1]));
    }
  }

  /** The bytes queued are exactly the data sent while a total or a type was known. */
  lemma {:induction false} QueuedIsKeptData(rs: seq<Report>)
    ensures QueuedFrom(PackagesOf(rs)) == KeptData(rs)
  {
    if rs != [] {
      QueuedIsKeptData(rs[..|rs|-1]);
      InfoIsTheLastReported(rs[..|rs|-1]);
      PackagesSplit(rs);
      OneMoreHeard(PackagesOf(rs[..|rs|-1]), PackageOf(rs[|rs|-1]));
    }
  }

  /** No report takes the total or the type back to unknown. */
  predicate NothingForgotten(rs: seq<Report>) {
    forall i :: 0 <= i < |rs| ==> rs[i] != TotalTracks(-1) && rs[i] != SubType(-1)
  }

  /** Once a total or a type was reported, all data are kept. */
  lemma {:induction false} AllDataKept(first: seq<Report>, later: seq<Report>)
    requires LastTotal(first) != -1 || LastType(first) != -1
    requires NothingForgotten(later)
    ensures KeptData(first + later) == KeptData(first) + AllData(later)
    ensures LastTotal(first + later) != -1 || LastType(first + later) != -1
  {
    if later == [] {
      assert first + later == first;
    } else {
      var before, r := later[..|later|-1], later[|later|-1];
      AllDataKept(first, before);
      var rs := first + later;
      assert rs[..|rs|-1] == first + before && rs[|rs|-1] == r;
    }
  }

  lemma {:induction false} KeptDataGrows(rs: seq<Report>, k: nat)
    requires k <= |rs|
    ensures KeptData(rs[..k]) <= KeptData(rs)
  {
    if k == |rs| {
      assert rs[..k] == rs;
    } else {
      var before := rs[..|rs|-1];
      KeptDataGrows(before, k);
      assert before[..k] == rs[..k];
    }
  }

  lemma {:induction false} MessagesPrefix(rs: seq<Report>, k: nat)
    requires k <= |rs|
    ensures Messages(rs)[..k] == Messages(rs[..k])
  {
    assert Messages(rs)[..k] == Messages(rs[..k]);
  }

  lemma {:induction false} MessagesAreSendable(rs: seq<Report>)
    requires AllWellformed(rs)
    ensures Sendable(Messages(rs))
  {
    forall i | 0 <= i < |rs| ensures ValidMessage(Messages(rs)[i]) {
      assert Messages(rs)[i] == MessageOf(rs[i]) && Wellformed(rs[i]);
    }
  }

  lemma StreamDelivers(j: seq<byte>, sessionId: int, rs: seq<Report>, p: seq<byte>, k: nat)
    requires AllWellformed(rs) && rs != [] && Junk(j) && sessionId % TWO_32 != MAGIC_FLAG
    requires p <= j + Frames(sessionId, Messages(rs)) && k == Complete(Messages(rs), |p| - |j|)
    ensures Drain(p).out == Deliveries(Messages(rs[..k]))
  {
    MessagesAreSendable(rs);
    DrainSkipsJunk(j, sessionId, Messages(rs), p);
    MessagesPrefix(rs, k);
  }

  /** From client to source, whatever part of the byte stream has arrived: the packages handed
      over are the first `k` reports, for the number `k` of complete frames. */
  lemma StreamArrives(j: seq<byte>, sessionId: int, rs: seq<Report>, p: seq<byte>, k: nat)
    requires AllWellformed(rs) && rs != [] && Junk(j) && sessionId % TWO_32 != MAGIC_FLAG
    requires p <= j + Frames(sessionId, Messages(rs)) && k == Complete(Messages(rs), |p| - |j|)
    ensures AllReadable(Drain(p).out) && ParseAll(Drain(p).out) == PackagesOf(rs[..k])
  {
    StreamDelivers(j, sessionId, rs, p, k);
    ReportsArrive(rs[..k]);
  }

}
