/** Resumable model download (`download_model` in crates/openwhisper-core/src/models.rs)
    against an arbitrary HTTP server. It relies on If-Range, Content-Range and 206 as in
    sections 13.1.5, 14.4 and 15.3.7 of RFC 9110. Hashing is an arbitrary function. */
module Download {
  import opened Prelude
  import Words

  type Bytes = seq<Byte>

  datatype Artifact = Artifact(size: nat, sha256: string, hash: Bytes -> string)

  predicate Verified(a: Artifact, content: Bytes) {
    |content| == a.size && a.hash(content) == a.sha256
  }

  // ---- the world outside ----

  /** A request without an offset asks for everything. */
  datatype Request = Request(offset: nat, ifRange: Option<string>)

  /** `rangeStart` is the first position named by Content-Range; the body arrives in chunks
      and may break off before its end. */
  datatype Response =
    | Unreachable
    | Response(status: nat, etag: Option<string>, rangeStart: Option<nat>, contentLength: Option<nat>,
               chunks: seq<Bytes>, brokenOff: bool)

  /** The server's answer to the n-th request, and the disk space found before it. */
  datatype World = World(server: (nat, Request) -> Response, available: nat -> nat, margin: nat)

  // ---- the disk ----

  datatype Disk = Disk(partial: Option<Bytes>, etag: Option<string>, destination: Option<Bytes>, quarantined: seq<Bytes>)

  function PartialLength(d: Disk): nat {
    if d.partial.Some? then |d.partial.value| else 0
  }

  function StoredEtag(d: Disk): Option<string> {
    if d.etag.Some? && !Words.IsBlank(d.etag.value) then d.etag else None
  }

  /** A disk state a crash could leave behind; `torn` marks the states in which the new ETag
      is written and the old partial file not yet truncated. */
  datatype Point = Point(disk: Disk, torn: bool)

  /** The disk, every state it passed through, the progress reported and the requests sent. */
  datatype Log = Log(disk: Disk, points: seq<Point>, progress: seq<nat>, requests: nat)

  function At(s: Log, d: Disk): Log {
    s.(disk := d, points := s.points + [Point(d, false)])
  }

  function RemovePartial(s: Log): Log {
    At(s, s.disk.(partial := None))
  }

  function RemoveEtag(s: Log): Log {
    At(s, s.disk.(etag := None))
  }

  function WriteEtag(s: Log, etag: string, torn: bool): Log {
    var d := s.disk.(etag := Some(etag));
    s.(disk := d, points := s.points + [Point(d, torn)])
  }

  function Truncate(s: Log): Log {
    At(s, s.disk.(partial := Some([])))
  }

  function Append(s: Log, chunk: Bytes): Log {
    At(s, s.disk.(partial := Some((if s.disk.partial.Some? then s.disk.partial.value else []) + chunk)))
  }

  function QuarantinePartial(s: Log): Log {
    At(s, if s.disk.partial.Some?
          then s.disk.(partial := None, quarantined := s.disk.quarantined + [s.disk.partial.value]) else s.disk)
  }

  function QuarantineDestination(s: Log): Log {
    At(s, if s.disk.destination.Some?
          then s.disk.(destination := None, quarantined := s.disk.quarantined + [s.disk.destination.value]) else s.disk)
  }

  function Place(s: Log): Log {
    At(s, s.disk.(destination := s.disk.partial, partial := None))
  }

  function Report(s: Log, downloaded: nat): Log {
    s.(progress := s.progress + [downloaded])
  }

  function SaturatingSub(a: nat, b: nat): nat {
    if b <= a then a - b else 0
  }

  // ---- one stage after another ----

  datatype Error =
    | Network
    | HttpStatus(status: nat)
    | InvalidResume
    | DownloadOverflow
    | SizeMismatch
    | HashMismatch
    | InsufficientDisk(available: nat, required: nat)

  datatype Result = Ok(reused: bool, downloaded: nat) | Err(error: Error)

  /** A partial file already larger than the artifact is set aside. */
  function DropOversized(a: Artifact, s: Log): Log {
    if PartialLength(s.disk) > a.size then RemoveEtag(QuarantinePartial(s)) else s
  }

  /** A partial file without a stored ETag cannot be resumed. */
  function DropUnnamed(s: Log): Log {
    if PartialLength(s.disk) > 0 && StoredEtag(s.disk).None? then RemovePartial(s) else s
  }

  function RequestFor(d: Disk): Request {
    if PartialLength(d) > 0 then Request(PartialLength(d), StoredEtag(d)) else Request(0, None)
  }

  datatype Decision = Refuse(error: Error) | StartOver | Resume | Replace

  /** What a response means for a partial file of `offset` bytes named by `stored`. */
  function Decide(a: Artifact, offset: nat, stored: Option<string>, restarted: bool, r: Response): Decision {
    if r.Unreachable? then Refuse(Network)
    else if !(200 <= r.status < 300) then Refuse(HttpStatus(r.status))
    else if offset > 0 && r.status == 206 then
      if r.rangeStart != Some(offset) then Refuse(InvalidResume)
      else if r.etag != stored then (if restarted then Refuse(InvalidResume) else StartOver)
      else if TooLong(a, offset, r) then Refuse(DownloadOverflow)
      else Resume
    else if r.status == 200 || (offset == 0 && r.status == 206) then
      if TooLong(a, 0, r) then Refuse(DownloadOverflow) else Replace
    else Refuse(InvalidResume)
  }

  /** Content-Length announces more than is missing. */
  predicate TooLong(a: Artifact, offset: nat, r: Response)
    requires r.Response?
  {
    r.contentLength.Some? && r.contentLength.value > SaturatingSub(a.size, offset)
  }

  /** Store the new ETag, then open the partial file, empty unless it is being resumed. */
  function Open(s: Log, etag: Option<string>, append: bool): Log {
    var named := if etag.Some? then WriteEtag(s, etag.value, !append) else s;
    if append then named else Truncate(named)
  }

  datatype Chunked = Chunked(log: Log, downloaded: nat, overflow: bool)

  /** Append chunks until one would exceed the pinned size. */
  function WriteChunks(a: Artifact, s: Log, chunks: seq<Bytes>, downloaded: nat): Chunked
    decreases |chunks|
  {
    if chunks == [] then Chunked(s, downloaded, false)
    else
      var next := downloaded + |chunks[0]|;
      if next > a.size then Chunked(RemoveEtag(QuarantinePartial(s)), downloaded, true)
      else WriteChunks(a, Report(Append(s, chunks[0]), next), chunks[1..], next)
  }

  /** Check what was downloaded and move it into place. */
  function Install(a: Artifact, s: Log, downloaded: nat, added: nat): (Log, Result) {
    if downloaded != a.size then (s, Err(SizeMismatch))
    else if s.disk.partial.None? || a.hash(s.disk.partial.value) != a.sha256 then
      (RemoveEtag(QuarantinePartial(s)), Err(HashMismatch))
    else
      (RemoveEtag(Place(if s.disk.destination.Some? then QuarantineDestination(s) else s)), Ok(false, added))
  }

  /** Everything after a response has been accepted. */
  function Receive(a: Artifact, s: Log, r: Response, append: bool): (Log, Result)
    requires r.Response?
  {
    var offset := if append then PartialLength(s.disk) else 0;
    var c := WriteChunks(a, Report(Open(s, r.etag, append), offset), r.chunks, offset);
    if c.overflow then (c.log, Err(DownloadOverflow))
    else if r.brokenOff then (c.log, Err(Network))
    else Install(a, c.log, c.downloaded, SaturatingSub(c.downloaded, offset))
  }

  /** Act on a response; None means that the loop goes round again. */
  function Act(a: Artifact, s: Log, restarted: bool, r: Response): (Log, Option<Result>) {
    match Decide(a, PartialLength(s.disk), StoredEtag(s.disk), restarted, r)
    case Refuse(error) => (s, Some(Err(error)))
    case StartOver => (RemoveEtag(RemovePartial(s)), None)
    case Resume => var t := Receive(a, s, r, true); (t.0, Some(t.1))
    case Replace => var t := Receive(a, s, r, false); (t.0, Some(t.1))
  }

  function Required(a: Artifact, w: World, d: Disk): nat {
    SaturatingSub(a.size, PartialLength(d)) + w.margin
  }

  /** One turn of the request loop. */
  function TryOnce(a: Artifact, w: World, s: Log, restarted: bool): (Log, Option<Result>) {
    var t := DropUnnamed(s);
    var required := Required(a, w, t.disk);
    if w.available(t.requests) < required then (t, Some(Err(InsufficientDisk(w.available(t.requests), required))))
    else Act(a, t.(requests := t.requests + 1), restarted, w.server(t.requests, RequestFor(t.disk)))
  }

  function RequestLoop(a: Artifact, w: World, s: Log, restarted: bool): (Log, Result)
    decreases !restarted
  {
    var t := TryOnce(a, w, s, restarted);
    if t.1.Some? then (t.0, t.1.value)
    else if restarted then (t.0, Err(InvalidResume))
    else RequestLoop(a, w, t.0, true)
  }

  /** The whole call. */
  function DownloadModel(a: Artifact, w: World, s: Log): (Log, Result) {
    if s.disk.destination.Some? && Verified(a, s.disk.destination.value) then (Report(s, a.size), Ok(true, 0))
    else
      RequestLoop(a, w, DropOversized(a, if s.disk.destination.Some? then QuarantineDestination(s) else s), false)
  }

  // ---- the program ----

  class ModelDirectory {
    var disk: Disk
    var progress: seq<nat>
    var requests: nat
    ghost var points: seq<Point>

    ghost function Value(): Log
      reads this
    {
      Log(disk, points, progress, requests)
    }

    constructor (d: Disk)
      ensures Value() == Log(d, [], [], 0)
    {
      disk, progress, requests, points := d, [], 0, [];
    }

    method SetDisk(d: Disk)
      modifies this`disk, this`points
      ensures Value() == At(old(Value()), d)
    {
      disk := d;
      points := points + [Point(d, false)];
    }

    method SetAsidePartial()
      modifies this`disk, this`points
      ensures Value() == QuarantinePartial(old(Value()))
    {
      if disk.partial.Some? {
        SetDisk(disk.(partial := None, quarantined := disk.quarantined + [disk.partial.value]));
      } else {
        SetDisk(disk);
      }
    }

    method StoreEtag(etag: string, ghost torn: bool)
      modifies this`disk, this`points
      ensures Value() == WriteEtag(old(Value()), etag, torn)
    {
      disk := disk.(etag := Some(etag));
      points := points + [Point(disk, torn)];
    }

    method OpenPartial(etag: Option<string>, append: bool)
      modifies this`disk, this`points
      ensures Value() == Open(old(Value()), etag, append)
    {
      if etag.Some? {
        StoreEtag(etag.value, !append);
      }
      if !append {
        SetDisk(disk.(partial := Some([])));
      }
    }

    /** The chunk loop. */
    method ReceiveChunks(a: Artifact, chunks: seq<Bytes>, offset: nat) returns (downloaded: nat, overflow: bool)
      modifies this
      ensures Chunked(Value(), downloaded, overflow) == WriteChunks(a, old(Value()), chunks, offset)
    {
      downloaded := offset;
      var i := 0;
      assert chunks[0..] == chunks;
      while i < |chunks|
        invariant 0 <= i <= |chunks|
        invariant WriteChunks(a, Value(), chunks[i..], downloaded) == WriteChunks(a, old(Value()), chunks, offset)
      {
        var chunk := chunks[i];
        var next := downloaded + |chunk|;
        assert chunks[i..][0] == chunk && chunks[i..][1..] == chunks[i + 1..];
        if next > a.size {
          SetAsidePartial();
          SetDisk(disk.(etag := None));
          return downloaded, true;
        }
        SetDisk(disk.(partial := Some((if disk.partial.Some? then disk.partial.value else []) + chunk)));
        downloaded := next;
        progress := progress + [downloaded];
        i := i + 1;
      }
      overflow := false;
    }

    method FinishDownload(a: Artifact, downloaded: nat, added: nat) returns (result: Result)
      modifies this
      ensures (Value(), result) == Install(a, old(Value()), downloaded, added)
    {
      if downloaded != a.size {
        return Err(SizeMismatch);
      }
      if disk.partial.None? || a.hash(disk.partial.value) != a.sha256 {
        SetAsidePartial();
        SetDisk(disk.(etag := None));
        return Err(HashMismatch);
      }
      if disk.destination.Some? {
        SetDisk(disk.(destination := None, quarantined := disk.quarantined + [disk.destination.value]));
      }
      SetDisk(disk.(destination := disk.partial, partial := None));
      SetDisk(disk.(etag := None));
      result := Ok(false, added);
    }

    method ReceiveBody(a: Artifact, r: Response, append: bool) returns (result: Result)
      requires r.Response?
      modifies this
      ensures (Value(), result) == Receive(a, old(Value()), r, append)
    {
      var offset := if append then PartialLength(disk) else 0;
      OpenPartial(r.etag, append);
      progress := progress + [offset];
      var downloaded, overflow := ReceiveChunks(a, r.chunks, offset);
      if overflow {
        return Err(DownloadOverflow);
      }
      if r.brokenOff {
        return Err(Network);
      }
      result := FinishDownload(a, downloaded, SaturatingSub(downloaded, offset));
    }

    method HandleResponse(a: Artifact, restarted: bool, r: Response) returns (result: Option<Result>)
      modifies this
      ensures (Value(), result) == Act(a, old(Value()), restarted, r)
    {
      match Decide(a, PartialLength(disk), StoredEtag(disk), restarted, r)
      case Refuse(error) =>
        result := Some(Err(error));
      case StartOver =>
        SetDisk(disk.(partial := None));
        SetDisk(disk.(etag := None));
        result := None;
      case Resume =>
        var received := ReceiveBody(a, r, true);
        result := Some(received);
      case Replace =>
        var received := ReceiveBody(a, r, false);
        result := Some(received);
    }

    /** One turn of the request loop; None means another one. */
    method RequestOnce(a: Artifact, w: World, restarted: bool) returns (outcome: Option<Result>)
      modifies this
      ensures (Value(), outcome) == TryOnce(a, w, old(Value()), restarted)
    {
      if PartialLength(disk) > 0 && StoredEtag(disk).None? {
        SetDisk(disk.(partial := None));
      }
      var required := Required(a, w, disk);
      if w.available(requests) < required {
        return Some(Err(InsufficientDisk(w.available(requests), required)));
      }
      var response := w.server(requests, RequestFor(disk));
      requests := requests + 1;
      outcome := HandleResponse(a, restarted, response);
    }

    method Download(a: Artifact, w: World) returns (result: Result)
      modifies this
      ensures (Value(), result) == DownloadModel(a, w, old(Value()))
    {
      if disk.destination.Some? {
        if Verified(a, disk.destination.value) {
          progress := progress + [a.size];
          return Ok(true, 0);
        }
        SetDisk(disk.(destination := None, quarantined := disk.quarantined + [disk.destination.value]));
      }
      if PartialLength(disk) > a.size {
        SetAsidePartial();
        SetDisk(disk.(etag := None));
      }
      var restarted := false;
      while true
        invariant RequestLoop(a, w, Value(), restarted) == DownloadModel(a, w, old(Value()))
        decreases !restarted
      {
        var outcome := RequestOnce(a, w, restarted);
        if outcome.Some? {
          return outcome.value;
        }
        if restarted {
          return Err(InvalidResume);
        }
        restarted := true;
      }
    }
  }

  // ---- an arbitrary server ----

  /** Compared with the disk at the start of the call: the partial file is within the pinned
      size or untouched, and the destination is untouched, absent or verified. */
  ghost predicate SafeDisk(a: Artifact, start: Disk, d: Disk) {
    && (PartialLength(d) <= a.size || d.partial == start.partial)
    && (d.destination == start.destination || d.destination.None? || Verified(a, d.destination.value))
  }

  ghost predicate Safe(a: Artifact, start: Disk, s: Log) {
    SafeDisk(a, start, s.disk) && forall i | 0 <= i < |s.points| :: SafeDisk(a, start, s.points[i].disk)
  }

  ghost predicate Rising(progress: seq<nat>, limit: nat) {
    forall i, j | 0 <= i <= j < |progress| :: progress[i] <= progress[j] <= limit
  }

  ghost predicate Reported(a: Artifact, s: Log, downloaded: nat) {
    Rising(s.progress, a.size) && s.progress != [] && s.progress[|s.progress| - 1] == downloaded
  }

  lemma {:induction false} WriteChunksSafe(a: Artifact, start: Disk, s: Log, chunks: seq<Bytes>, downloaded: nat)
    requires Safe(a, start, s) && s.disk.partial.Some? && PartialLength(s.disk) == downloaded <= a.size
    requires Reported(a, s, downloaded)
    ensures var c := WriteChunks(a, s, chunks, downloaded);
            && Safe(a, start, c.log) && Rising(c.log.progress, a.size) && c.log.requests == s.requests
            && c.log.disk.destination == s.disk.destination
            && (!c.overflow ==> c.log.disk.partial.Some? && PartialLength(c.log.disk) == c.downloaded <= a.size)
    decreases |chunks|
  {
    if chunks != [] {
      var next := downloaded + |chunks[0]|;
      if next <= a.size {
        WriteChunksSafe(a, start, Report(Append(s, chunks[0]), next), chunks[1..], next);
      }
    }
  }

  ghost predicate Delivered(a: Artifact, s: Log, r: Result) {
    r.Ok? && !r.reused ==>
      && s.disk.destination.Some? && Verified(a, s.disk.destination.value)
      && s.disk.partial.None? && s.disk.etag.None?
  }

  lemma InstallSafe(a: Artifact, start: Disk, s: Log, downloaded: nat, added: nat)
    requires Safe(a, start, s) && PartialLength(s.disk) == downloaded <= a.size
    ensures var t := Install(a, s, downloaded, added);
            && Safe(a, start, t.0) && Delivered(a, t.0, t.1) && (t.1.Ok? ==> !t.1.reused)
            && t.0.progress == s.progress && t.0.requests == s.requests
  {
    if downloaded == a.size && s.disk.partial.Some? && a.hash(s.disk.partial.value) == a.sha256 {
      var q := if s.disk.destination.Some? then QuarantineDestination(s) else s;
      assert Safe(a, start, q);
      assert Safe(a, start, Place(q));
    }
  }

  lemma ReceiveSafe(a: Artifact, start: Disk, s: Log, r: Response, append: bool)
    requires Safe(a, start, s) && s.progress == [] && r.Response? && PartialLength(s.disk) <= a.size
    requires append ==> s.disk.partial.Some?
    ensures var t := Receive(a, s, r, append);
            && Safe(a, start, t.0) && Rising(t.0.progress, a.size) && t.0.requests == s.requests
            && Delivered(a, t.0, t.1) && (t.1.Ok? ==> !t.1.reused)
  {
    var offset := if append then PartialLength(s.disk) else 0;
    var o := Open(s, r.etag, append);
    assert Safe(a, start, o);
    WriteChunksSafe(a, start, Report(o, offset), r.chunks, offset);
    var c := WriteChunks(a, Report(o, offset), r.chunks, offset);
    if !c.overflow {
      InstallSafe(a, start, c.log, c.downloaded, SaturatingSub(c.downloaded, offset));
    }
  }

  lemma TryOnceSafe(a: Artifact, w: World, start: Disk, s: Log, restarted: bool)
    requires Safe(a, start, s) && s.progress == [] && PartialLength(s.disk) <= a.size
    ensures var t := TryOnce(a, w, s, restarted);
            && Safe(a, start, t.0) && Rising(t.0.progress, a.size) && s.requests <= t.0.requests <= s.requests + 1
            && (t.1.Some? ==> Delivered(a, t.0, t.1.value) && (t.1.value.Ok? ==> !t.1.value.reused))
            && (t.1.None? ==> t.0.progress == [] && PartialLength(t.0.disk) == 0 && !restarted)
  {
    var d := DropUnnamed(s);
    assert Safe(a, start, d);
    if w.available(d.requests) >= Required(a, w, d.disk) {
      var r := w.server(d.requests, RequestFor(d.disk));
      var sent := d.(requests := d.requests + 1);
      match Decide(a, PartialLength(d.disk), StoredEtag(d.disk), restarted, r)
      case Refuse(_) =>
      case StartOver =>
      case Resume => ReceiveSafe(a, start, sent, r, true);
      case Replace => ReceiveSafe(a, start, sent, r, false);
    }
  }

  function Begin(d: Disk): Log {
    Log(d, [], [], 0)
  }

  /** Whatever the server answers and whatever is on disk at the start: at most two requests,
      never a partial file grown past the pinned size nor an unverified destination in any
      state a crash could leave, progress that never goes back, and Ok only with a verified
      destination and nothing left over. */
  lemma ArbitraryServerIsSafe(a: Artifact, w: World, d: Disk)
    ensures var t := DownloadModel(a, w, Begin(d));
            && Safe(a, d, t.0)
            && t.0.requests <= 2
            && Rising(t.0.progress, a.size)
            && (t.1.Ok? ==> t.0.disk.destination.Some? && Verified(a, t.0.disk.destination.value))
            && Delivered(a, t.0, t.1)
  {
    if !(d.destination.Some? && Verified(a, d.destination.value)) {
      var s := if d.destination.Some? then QuarantineDestination(Begin(d)) else Begin(d);
      PreparedSafe(a, d, s);
      TwoTriesSafe(a, w, d, DropOversized(a, s));
    }
  }

  lemma PreparedSafe(a: Artifact, d: Disk, s: Log)
    requires s == Begin(d) || (d.destination.Some? && s == QuarantineDestination(Begin(d)))
    ensures var t := DropOversized(a, s);
            Safe(a, d, t) && t.progress == [] && t.requests == 0 && PartialLength(t.disk) <= a.size
  {
    assert Safe(a, d, s);
  }

  lemma TwoTriesSafe(a: Artifact, w: World, start: Disk, s: Log)
    requires Safe(a, start, s) && s.progress == [] && s.requests == 0 && PartialLength(s.disk) <= a.size
    ensures var t := RequestLoop(a, w, s, false);
            && Safe(a, start, t.0) && t.0.requests <= 2 && Rising(t.0.progress, a.size) && Delivered(a, t.0, t.1)
            && (t.1.Ok? ==> !t.1.reused)
  {
    TryOnceSafe(a, w, start, s, false);
    var t := TryOnce(a, w, s, false);
    if t.1.None? {
      TryOnceSafe(a, w, start, t.0, true);
    }
  }

  // ---- a server that keeps its promises ----

  /** Every successful response names its representation by an ETag; a 200 carries that
      representation from the start and a 206 from the position asked for, both possibly cut short. */
  ghost predicate Conforms(rep: string -> Bytes, q: Request, r: Response) {
    r.Response? && 200 <= r.status < 300 ==>
      && r.etag.Some?
      && (r.status == 200 ==> Flatten(r.chunks) <= rep(r.etag.value))
      && (r.status == 206 ==> 0 < q.offset <= |rep(r.etag.value)| && Flatten(r.chunks) <= rep(r.etag.value)[q.offset..])
  }

  ghost predicate Conforming(rep: string -> Bytes, w: World) {
    forall n, q :: Conforms(rep, q, w.server(n, q))
  }

  /** The partial file is a prefix of the representation named by the stored ETag. */
  ghost predicate Consistent(rep: string -> Bytes, d: Disk) {
    PartialLength(d) > 0 && StoredEtag(d).Some? ==> d.partial.value <= rep(StoredEtag(d).value)
  }

  ghost predicate AllConsistent(rep: string -> Bytes, s: Log) {
    Consistent(rep, s.disk) && forall i | 0 <= i < |s.points| && !s.points[i].torn :: Consistent(rep, s.points[i].disk)
  }

  lemma PrefixOfPrefix(a: Bytes, b: Bytes, c: Bytes, whole: Bytes)
    requires a + (b + c) <= whole
    ensures a <= whole && a + b + c <= whole && a + b <= whole
  {
    assert a + (b + c) == a + b + c;
    assert a + b == (a + b + c)[..|a + b|];
    assert a == (a + b + c)[..|a|];
  }

  lemma {:induction false} WriteChunksConsistent(a: Artifact, rep: string -> Bytes, e: string, s: Log, chunks: seq<Bytes>, downloaded: nat)
    requires AllConsistent(rep, s) && s.disk.partial.Some? && s.disk.etag == Some(e)
    requires s.disk.partial.value + Flatten(chunks) <= rep(e)
    ensures var c := WriteChunks(a, s, chunks, downloaded);
            && AllConsistent(rep, c.log)
            && (!c.overflow ==> c.log.disk.etag == Some(e) && c.log.disk.partial == Some(s.disk.partial.value + Flatten(chunks)))
    decreases |chunks|
  {
    var p := s.disk.partial.value;
    if chunks == [] {
      assert p + [] == p;
    } else if downloaded + |chunks[0]| <= a.size {
      var next := downloaded + |chunks[0]|;
      PrefixOfPrefix(p, chunks[0], Flatten(chunks[1..]), rep(e));
      var t := Report(Append(s, chunks[0]), next);
      assert AllConsistent(rep, t);
      WriteChunksConsistent(a, rep, e, t, chunks[1..], next);
      assert p + Flatten(chunks) == p + chunks[0] + Flatten(chunks[1..]);
    }
  }

  ghost predicate FromOneRepresentation(rep: string -> Bytes, s: Log, r: Result) {
    r.Ok? && !r.reused ==> exists e :: s.disk.destination.Some? && s.disk.destination.value <= rep(e)
  }

  lemma InstallConsistent(a: Artifact, rep: string -> Bytes, e: string, s: Log, downloaded: nat, added: nat)
    requires AllConsistent(rep, s) && s.disk.partial.Some? && s.disk.partial.value <= rep(e)
    ensures var t := Install(a, s, downloaded, added);
            AllConsistent(rep, t.0) && FromOneRepresentation(rep, t.0, t.1)
  {
    if downloaded == a.size && a.hash(s.disk.partial.value) == a.sha256 {
      var q := if s.disk.destination.Some? then QuarantineDestination(s) else s;
      assert AllConsistent(rep, q);
      assert AllConsistent(rep, Place(q));
    }
  }

  lemma ReceiveConsistent(a: Artifact, rep: string -> Bytes, s: Log, r: Response, append: bool)
    requires AllConsistent(rep, s) && r.Response? && r.etag.Some?
    requires append ==> s.disk.partial.Some? && s.disk.partial.value + Flatten(r.chunks) <= rep(r.etag.value)
    requires !append ==> Flatten(r.chunks) <= rep(r.etag.value)
    ensures var t := Receive(a, s, r, append);
            AllConsistent(rep, t.0) && FromOneRepresentation(rep, t.0, t.1)
  {
    var e := r.etag.value;
    var offset := if append then PartialLength(s.disk) else 0;
    var o := Open(s, r.etag, append);
    if append {
      PrefixOfPrefix(s.disk.partial.value, Flatten(r.chunks), [], rep(e));
      assert Flatten(r.chunks) + [] == Flatten(r.chunks);
    } else {
      assert [] + Flatten(r.chunks) == Flatten(r.chunks);
    }
    assert AllConsistent(rep, o);
    WriteChunksConsistent(a, rep, e, Report(o, offset), r.chunks, offset);
    var c := WriteChunks(a, Report(o, offset), r.chunks, offset);
    if !c.overflow {
      InstallConsistent(a, rep, e, c.log, c.downloaded, SaturatingSub(c.downloaded, offset));
    }
  }

  lemma TryOnceConsistent(a: Artifact, rep: string -> Bytes, w: World, s: Log, restarted: bool)
    requires AllConsistent(rep, s) && Conforming(rep, w)
    ensures var t := TryOnce(a, w, s, restarted);
            AllConsistent(rep, t.0) && (t.1.Some? ==> FromOneRepresentation(rep, t.0, t.1.value))
  {
    var d := DropUnnamed(s);
    assert AllConsistent(rep, d);
    if w.available(d.requests) >= Required(a, w, d.disk) {
      var q := RequestFor(d.disk);
      var r := w.server(d.requests, q);
      assert Conforms(rep, q, r);
      var sent := d.(requests := d.requests + 1);
      match Decide(a, PartialLength(d.disk), StoredEtag(d.disk), restarted, r)
      case Refuse(_) =>
      case StartOver =>
      case Resume =>
        JoinAtOffset(d.disk.partial.value, Flatten(r.chunks), rep(r.etag.value));
        ReceiveConsistent(a, rep, sent, r, true);
      case Replace =>
        ReceiveConsistent(a, rep, sent, r, false);
    }
  }

  lemma JoinAtOffset(a: Bytes, b: Bytes, whole: Bytes)
    requires a <= whole && b <= whole[|a|..]
    ensures a + b <= whole
  {
    assert whole == a + whole[|a|..];
  }

  lemma CallStaysConsistent(a: Artifact, rep: string -> Bytes, w: World, d: Disk)
    requires Consistent(rep, d) && Conforming(rep, w)
    ensures var t := DownloadModel(a, w, Begin(d));
            AllConsistent(rep, t.0) && FromOneRepresentation(rep, t.0, t.1)
  {
    if !(d.destination.Some? && Verified(a, d.destination.value)) {
      var s := if d.destination.Some? then QuarantineDestination(Begin(d)) else Begin(d);
      assert AllConsistent(rep, s);
      var s1 := DropOversized(a, s);
      assert AllConsistent(rep, s1);
      TryOnceConsistent(a, rep, w, s1, false);
      var t := TryOnce(a, w, s1, false);
      if t.1.None? {
        TryOnceConsistent(a, rep, w, t.0, true);
      }
    }
  }

  // ---- the torn instant ----

  /** The disks a crash between storing a new ETag and truncating would leave. */
  function TornDisks(points: seq<Point>): seq<Disk> {
    if points == [] then []
    else
      var last := points[|points| - 1];
      TornDisks(points[..|points| - 1]) + if last.torn then [last.disk] else []
  }

  lemma {:induction false} TornIsThere(points: seq<Point>, i: nat)
    requires i < |points| && points[i].torn
    ensures points[i].disk in TornDisks(points)
  {
    if i < |points| - 1 {
      TornIsThere(points[..|points| - 1], i);
    }
  }

  lemma {:induction false} TornIndex(points: seq<Point>, d: Disk) returns (i: nat)
    requires d in TornDisks(points)
    ensures i < |points| && points[i] == Point(d, true)
  {
    var init, last := points[..|points| - 1], points[|points| - 1];
    if last == Point(d, true) {
      i := |points| - 1;
    } else {
      i := TornIndex(init, d);
    }
  }

  lemma AtTearsNothing(s: Log, d: Disk)
    ensures TornDisks(At(s, d).points) == TornDisks(s.points)
  {
    assert TornDisks(s.points) + [] == TornDisks(s.points);
  }

  lemma SetAsideTearsNothing(s: Log)
    ensures TornDisks(RemoveEtag(QuarantinePartial(s)).points) == TornDisks(s.points)
    ensures TornDisks(RemoveEtag(RemovePartial(s)).points) == TornDisks(s.points)
    ensures TornDisks(QuarantineDestination(s).points) == TornDisks(s.points)
  {
    AtTearsNothing(s, QuarantinePartial(s).disk);
    AtTearsNothing(QuarantinePartial(s), RemoveEtag(QuarantinePartial(s)).disk);
    AtTearsNothing(s, RemovePartial(s).disk);
    AtTearsNothing(RemovePartial(s), RemoveEtag(RemovePartial(s)).disk);
    AtTearsNothing(s, QuarantineDestination(s).disk);
  }

  lemma {:induction false} ChunksTearNothing(a: Artifact, s: Log, chunks: seq<Bytes>, downloaded: nat)
    ensures TornDisks(WriteChunks(a, s, chunks, downloaded).log.points) == TornDisks(s.points)
    decreases |chunks|
  {
    if chunks != [] {
      var next := downloaded + |chunks[0]|;
      if next > a.size {
        SetAsideTearsNothing(s);
      } else {
        AtTearsNothing(s, Append(s, chunks[0]).disk);
        ChunksTearNothing(a, Report(Append(s, chunks[0]), next), chunks[1..], next);
      }
    }
  }

  lemma InstallTearsNothing(a: Artifact, s: Log, downloaded: nat, added: nat)
    ensures TornDisks(Install(a, s, downloaded, added).0.points) == TornDisks(s.points)
  {
    if downloaded == a.size {
      if s.disk.partial.None? || a.hash(s.disk.partial.value) != a.sha256 {
        SetAsideTearsNothing(s);
      } else if s.disk.destination.Some? {
        SetAsideTearsNothing(s);
        PlaceTearsNothing(QuarantineDestination(s));
      } else {
        PlaceTearsNothing(s);
      }
    }
  }

  lemma PlaceTearsNothing(s: Log)
    ensures TornDisks(RemoveEtag(Place(s)).points) == TornDisks(s.points)
  {
    AtTearsNothing(s, Place(s).disk);
    AtTearsNothing(Place(s), RemoveEtag(Place(s)).disk);
  }

  /** The torn disk that opening the partial file passes through, if any. */
  function TornByOpen(d: Disk, etag: Option<string>, append: bool): seq<Disk> {
    if etag.Some? && !append then [d.(etag := etag)] else []
  }

  lemma ReceiveTears(a: Artifact, s: Log, r: Response, append: bool)
    requires r.Response?
    ensures TornDisks(Receive(a, s, r, append).0.points) == TornDisks(s.points) + TornByOpen(s.disk, r.etag, append)
  {
    var offset := if append then PartialLength(s.disk) else 0;
    var o := Report(Open(s, r.etag, append), offset);
    ChunksTearNothing(a, o, r.chunks, offset);
    var c := WriteChunks(a, o, r.chunks, offset);
    InstallTearsNothing(a, c.log, c.downloaded, SaturatingSub(c.downloaded, offset));
  }

  /** The torn disk one turn of the loop passes through, if any: the response replaces the
      partial file and names itself. */
  function TornByTry(a: Artifact, w: World, s: Log, restarted: bool): seq<Disk> {
    var d := DropUnnamed(s).disk;
    var r := w.server(s.requests, RequestFor(d));
    if w.available(s.requests) >= Required(a, w, d) && Decide(a, PartialLength(d), StoredEtag(d), restarted, r).Replace? then
      TornByOpen(d, r.etag, false)
    else []
  }

  lemma ActTears(a: Artifact, s: Log, restarted: bool, r: Response)
    ensures var t := Act(a, s, restarted, r);
            var anew := Decide(a, PartialLength(s.disk), StoredEtag(s.disk), restarted, r).Replace?;
            && TornDisks(t.0.points) == TornDisks(s.points) + (if anew then TornByOpen(s.disk, r.etag, false) else [])
            && (t.1.None? ==> !anew && t.0.disk.partial.None?)
  {
    assert TornDisks(s.points) + [] == TornDisks(s.points);
    match Decide(a, PartialLength(s.disk), StoredEtag(s.disk), restarted, r)
    case Refuse(_) =>
    case StartOver => SetAsideTearsNothing(s);
    case Resume => ReceiveTears(a, s, r, true);
    case Replace => ReceiveTears(a, s, r, false);
  }

  lemma TrySends(a: Artifact, w: World, s: Log, restarted: bool, d: Log, r: Response)
    requires d == DropUnnamed(s) && w.available(s.requests) >= Required(a, w, d.disk)
    requires r == w.server(s.requests, RequestFor(d.disk))
    ensures TryOnce(a, w, s, restarted) == Act(a, d.(requests := d.requests + 1), restarted, r)
    ensures TornByTry(a, w, s, restarted) ==
            if Decide(a, PartialLength(d.disk), StoredEtag(d.disk), restarted, r).Replace? then TornByOpen(d.disk, r.etag, false) else []
  {}

  lemma TryTears(a: Artifact, w: World, s: Log, restarted: bool)
    ensures var t := TryOnce(a, w, s, restarted);
            && TornDisks(t.0.points) == TornDisks(s.points) + TornByTry(a, w, s, restarted)
            && (t.1.None? ==> TornByTry(a, w, s, restarted) == [] && t.0.disk.partial.None?)
  {
    var d := DropUnnamed(s);
    if w.available(d.requests) >= Required(a, w, d.disk) {
      var r := w.server(d.requests, RequestFor(d.disk));
      TrySends(a, w, s, restarted, d, r);
      ActTears(a, d.(requests := d.requests + 1), restarted, r);
    } else {
      assert TornDisks(s.points) + [] == TornDisks(s.points);
    }
  }

  lemma EmptyPartialTearsHarmlessly(a: Artifact, rep: string -> Bytes, w: World, s: Log, restarted: bool)
    requires PartialLength(s.disk) == 0 || StoredEtag(s.disk).None?
    ensures forall x | x in TornByTry(a, w, s, restarted) :: Consistent(rep, x)
  {
    assert PartialLength(DropUnnamed(s).disk) == 0;
  }

  /** The partial file is to be resumed, but the server sends another representation, which
      it names and which the partial file does not begin. */
  ghost predicate Replaced(a: Artifact, rep: string -> Bytes, w: World, d: Disk) {
    && !(d.destination.Some? && Verified(a, d.destination.value))
    && 0 < PartialLength(d) <= a.size && StoredEtag(d).Some?
    && w.available(0) >= Required(a, w, d)
    && var r := w.server(0, RequestFor(d));
       && r.Response? && r.status == 200 && !TooLong(a, 0, r)
       && r.etag.Some? && !Words.IsBlank(r.etag.value) && !(d.partial.value <= rep(r.etag.value))
  }

  lemma TornByFirstTry(a: Artifact, rep: string -> Bytes, w: World, d: Disk, s: Log)
    requires !(d.destination.Some? && Verified(a, d.destination.value)) && s.requests == 0
    requires s.disk.partial == d.partial && s.disk.etag == d.etag && PartialLength(d) <= a.size
    ensures var torn := TornByTry(a, w, s, false);
            if Replaced(a, rep, w, d) then torn != [] && !Consistent(rep, torn[0]) && torn == [torn[0]]
            else forall x | x in torn :: Consistent(rep, x)
  {
    if PartialLength(d) == 0 || StoredEtag(d).None? {
      EmptyPartialTearsHarmlessly(a, rep, w, s, false);
    } else {
      assert DropUnnamed(s) == s && RequestFor(s.disk) == RequestFor(d) && Required(a, w, s.disk) == Required(a, w, d);
    }
  }

  /** All torn states of a call are inconsistent, or none is. */
  ghost predicate TornAre(rep: string -> Bytes, torn: seq<Disk>, bad: bool) {
    (bad ==> torn != []) && forall x | x in torn :: Consistent(rep, x) == !bad
  }

  lemma LoopTears(a: Artifact, rep: string -> Bytes, w: World, d: Disk, s: Log)
    requires !(d.destination.Some? && Verified(a, d.destination.value)) && s.requests == 0 && TornDisks(s.points) == []
    requires PartialLength(s.disk) <= a.size
    requires if PartialLength(d) <= a.size then s.disk.partial == d.partial && s.disk.etag == d.etag else s.disk.partial.None?
    ensures var torn := TornDisks(RequestLoop(a, w, s, false).0.points);
            TornAre(rep, torn, Replaced(a, rep, w, d))
  {
    if PartialLength(d) <= a.size {
      TornByFirstTry(a, rep, w, d, s);
    } else {
      EmptyPartialTearsHarmlessly(a, rep, w, s, false);
    }
    var t := TryOnce(a, w, s, false);
    TryTears(a, w, s, false);
    assert [] + TornByTry(a, w, s, false) == TornByTry(a, w, s, false);
    if t.1.None? {
      TryTears(a, w, t.0, true);
      EmptyPartialTearsHarmlessly(a, rep, w, t.0, true);
      assert [] + TornByTry(a, w, t.0, true) == TornByTry(a, w, t.0, true);
    }
  }

  lemma PreparedTearsNothing(a: Artifact, d: Disk, s: Log)
    requires s == Begin(d) || (d.destination.Some? && s == QuarantineDestination(Begin(d)))
    ensures var t := DropOversized(a, s);
            && TornDisks(t.points) == [] && t.requests == 0 && PartialLength(t.disk) <= a.size
            && (if PartialLength(d) <= a.size then t.disk.partial == d.partial && t.disk.etag == d.etag else t.disk.partial.None?)
  {
    SetAsideTearsNothing(Begin(d));
    SetAsideTearsNothing(s);
  }

  lemma CallTears(a: Artifact, rep: string -> Bytes, w: World, d: Disk)
    ensures TornAre(rep, TornDisks(DownloadModel(a, w, Begin(d)).0.points), Replaced(a, rep, w, d))
  {
    if !(d.destination.Some? && Verified(a, d.destination.value)) {
      var s := if d.destination.Some? then QuarantineDestination(Begin(d)) else Begin(d);
      PreparedTearsNothing(a, d, s);
      LoopTears(a, rep, w, d, DropOversized(a, s));
    }
  }

  /** For every call against a conforming server, from a consistent disk: a state it passes
      through is inconsistent exactly when it is torn and the call replaces a partial file by
      a representation that the file does not begin; and such a call does pass through one. */
  lemma TornPointConsistentIff(a: Artifact, rep: string -> Bytes, w: World, d: Disk)
    requires Consistent(rep, d) && Conforming(rep, w)
    ensures var points := DownloadModel(a, w, Begin(d)).0.points;
            && (forall i | 0 <= i < |points| ::
                  !Consistent(rep, points[i].disk) <==> points[i].torn && Replaced(a, rep, w, d))
            && (Replaced(a, rep, w, d) <==> exists i :: 0 <= i < |points| && !Consistent(rep, points[i].disk))
  {
    var points := DownloadModel(a, w, Begin(d)).0.points;
    CallStaysConsistent(a, rep, w, d);
    CallTears(a, rep, w, d);
    forall i | 0 <= i < |points|
      ensures !Consistent(rep, points[i].disk) <==> points[i].torn && Replaced(a, rep, w, d)
    {
      if points[i].torn {
        TornIsThere(points, i);
      }
    }
    if Replaced(a, rep, w, d) {
      var i := TornIndex(points, TornDisks(points)[0]);
      assert !Consistent(rep, points[i].disk);
    }
  }

  // ---- histories of interrupted downloads ----

  /** One call, stopped by a crash at its k-th disk state or run to its end if it has fewer. */
  datatype Session = Session(world: World, k: nat)

  function After(a: Artifact, s: Session, d: Disk): Disk {
    var t := DownloadModel(a, s.world, Begin(d)).0;
    if s.k < |t.points| then t.points[s.k].disk else t.disk
  }

  function DiskAfter(a: Artifact, d: Disk, sessions: seq<Session>): Disk {
    if sessions == [] then d
    else After(a, sessions[|sessions| - 1], DiskAfter(a, d, sessions[..|sessions| - 1]))
  }

  ghost predicate AllConforming(rep: string -> Bytes, sessions: seq<Session>) {
    forall i | 0 <= i < |sessions| :: Conforming(rep, sessions[i].world)
  }

  /** The session crashes between storing an ETag and truncating, while replacing the partial
      file by a representation that the file does not begin. */
  ghost predicate MixesFiles(a: Artifact, rep: string -> Bytes, s: Session, d: Disk) {
    var points := DownloadModel(a, s.world, Begin(d)).0.points;
    s.k < |points| && points[s.k].torn && Replaced(a, rep, s.world, d)
  }

  ghost predicate GoodHistory(a: Artifact, rep: string -> Bytes, d: Disk, sessions: seq<Session>) {
    if sessions == [] then true
    else
      var init, last := sessions[..|sessions| - 1], sessions[|sessions| - 1];
      GoodHistory(a, rep, d, init) && !MixesFiles(a, rep, last, DiskAfter(a, d, init))
  }

  lemma SessionConsistentIff(a: Artifact, rep: string -> Bytes, s: Session, d: Disk)
    requires Consistent(rep, d) && Conforming(rep, s.world)
    ensures Consistent(rep, After(a, s, d)) <==> !MixesFiles(a, rep, s, d)
  {
    CallStaysConsistent(a, rep, s.world, d);
    TornPointConsistentIff(a, rep, s.world, d);
  }

  ghost predicate ConsistentSoFar(a: Artifact, rep: string -> Bytes, d: Disk, sessions: seq<Session>, n: nat)
    requires n <= |sessions|
  {
    Consistent(rep, DiskAfter(a, d, sessions[..n]))
  }

  lemma SoFarInInit(a: Artifact, rep: string -> Bytes, d: Disk, sessions: seq<Session>, n: nat)
    requires n < |sessions|
    ensures ConsistentSoFar(a, rep, d, sessions[..|sessions| - 1], n) == ConsistentSoFar(a, rep, d, sessions, n)
  {
    assert sessions[..|sessions| - 1][..n] == sessions[..n];
  }

  lemma LastSoFar(a: Artifact, rep: string -> Bytes, d: Disk, sessions: seq<Session>)
    requires sessions != [] && AllConforming(rep, sessions)
    requires ConsistentSoFar(a, rep, d, sessions, |sessions| - 1)
    ensures var init, last := sessions[..|sessions| - 1], sessions[|sessions| - 1];
            ConsistentSoFar(a, rep, d, sessions, |sessions|) <==> !MixesFiles(a, rep, last, DiskAfter(a, d, init))
  {
    assert sessions[..|sessions|] == sessions;
    SessionConsistentIff(a, rep, sessions[|sessions| - 1], DiskAfter(a, d, sessions[..|sessions| - 1]));
  }

  /** Across a history of interrupted downloads against conforming servers, the partial file
      stays a prefix of the representation named by the stored ETag from crash to crash exactly
      when no crash mixes two representations. */
  lemma {:induction false} HistoryConsistentIff(a: Artifact, rep: string -> Bytes, d: Disk, sessions: seq<Session>)
    requires Consistent(rep, d) && AllConforming(rep, sessions)
    ensures (forall n | 0 <= n <= |sessions| :: ConsistentSoFar(a, rep, d, sessions, n)) <==> GoodHistory(a, rep, d, sessions)
  {
    if sessions == [] {
      assert sessions[..0] == [];
    } else {
      var init := sessions[..|sessions| - 1];
      HistoryConsistentIff(a, rep, d, init);
      forall n | 0 <= n < |sessions| ensures ConsistentSoFar(a, rep, d, init, n) == ConsistentSoFar(a, rep, d, sessions, n) {
        SoFarInInit(a, rep, d, sessions, n);
      }
      if ConsistentSoFar(a, rep, d, sessions, |init|) {
        LastSoFar(a, rep, d, sessions);
      }
    }
  }

  /** After any such history, whatever the next call installs is all from one representation,
      and equals it when that has the pinned size. */
  lemma HistoryStaysConsistent(a: Artifact, rep: string -> Bytes, d: Disk, sessions: seq<Session>, w: World)
    requires Consistent(rep, d) && AllConforming(rep, sessions) && Conforming(rep, w)
    requires GoodHistory(a, rep, d, sessions)
    ensures Consistent(rep, DiskAfter(a, d, sessions))
    ensures var t := DownloadModel(a, w, Begin(DiskAfter(a, d, sessions)));
            t.1.Ok? && !t.1.reused ==>
              exists e :: t.0.disk.destination.Some? && t.0.disk.destination.value <= rep(e)
                          && (|rep(e)| == a.size ==> t.0.disk.destination.value == rep(e))
  {
    HistoryConsistentIff(a, rep, d, sessions);
    assert sessions[..|sessions|] == sessions && ConsistentSoFar(a, rep, d, sessions, |sessions|);
    var before := DiskAfter(a, d, sessions);
    CallStaysConsistent(a, rep, w, before);
    ArbitraryServerIsSafe(a, w, before);
  }

  // ---- what a crash at such a state costs ----

  /** A server whose only representation is `whole`, named `etag`; it honours ranges. */
  function Serving(whole: Bytes, etag: string): (nat, Request) -> Response {
    (n: nat, q: Request) =>
      if 0 < q.offset <= |whole| && q.ifRange == Some(etag) then
        Response(206, Some(etag), Some(q.offset), None, [whole[q.offset..]], false)
      else Response(200, Some(etag), None, None, [whole], false)
  }

  function Roomy(a: Artifact, whole: Bytes, etag: string): World {
    World(Serving(whole, etag), (n: nat) => a.size, 0)
  }

  lemma ServingConforms(a: Artifact, rep: string -> Bytes, whole: Bytes, etag: string)
    requires rep(etag) == whole
    ensures Conforming(rep, Roomy(a, whole, etag))
  {
    forall n: nat, q: Request ensures Conforms(rep, q, Serving(whole, etag)(n, q)) {
      FlattenOne(whole);
      if 0 < q.offset <= |whole| {
        FlattenOne(whole[q.offset..]);
      }
    }
  }

  lemma FlattenOne(chunk: Bytes)
    ensures Flatten([chunk]) == chunk
  {
    assert [chunk][1..] == [] && chunk + [] == chunk;
  }

  /** The partial file p of an old representation, beside the ETag of the new one. */
  function TornDisk(p: Bytes, etag: string): Disk {
    Disk(Some(p), Some(etag), None, [])
  }

  lemma WriteOneChunk(a: Artifact, s: Log, chunk: Bytes, downloaded: nat)
    requires s.disk.partial.Some? && downloaded + |chunk| <= a.size
    ensures var c := WriteChunks(a, s, [chunk], downloaded);
            && !c.overflow && c.downloaded == downloaded + |chunk|
            && c.log.disk == s.disk.(partial := Some(s.disk.partial.value + chunk))
  {
    var t := Report(Append(s, chunk), downloaded + |chunk|);
    assert [chunk][1..] == [];
    assert WriteChunks(a, t, [], downloaded + |chunk|) == Chunked(t, downloaded + |chunk|, false);
  }

  /** Resuming on a torn disk glues the new tail onto the old head. The hash refuses that, and
      what was downloaded is set aside. */
  lemma ResumeOnTornDisk(a: Artifact, p: Bytes, whole: Bytes, etag: string)
    requires 0 < |p| <= |whole| == a.size && !Words.IsBlank(etag)
    requires a.hash(p + whole[|p|..]) != a.sha256
    ensures var t := DownloadModel(a, Roomy(a, whole, etag), Begin(TornDisk(p, etag)));
            t.1 == Err(HashMismatch) && t.0.disk == Disk(None, None, None, [p + whole[|p|..]])
  {
    var w, s := Roomy(a, whole, etag), Begin(TornDisk(p, etag));
    var tail := whole[|p|..];
    var r := Response(206, Some(etag), Some(|p|), None, [tail], false);
    assert RequestFor(s.disk) == Request(|p|, Some(etag)) && w.server(0, RequestFor(s.disk)) == r;
    assert DropOversized(a, s) == s && DropUnnamed(s) == s;
    var sent := s.(requests := 1);
    ReceiveTail(a, sent, p, tail, etag);
    assert Decide(a, |p|, Some(etag), false, r) == Resume;
    assert Act(a, sent, false, r) == (Receive(a, sent, r, true).0, Some(Err(HashMismatch)));
    assert TryOnce(a, w, s, false) == Act(a, sent, false, r);
  }

  lemma ReceiveTail(a: Artifact, s: Log, p: Bytes, tail: Bytes, etag: string)
    requires s.disk == TornDisk(p, etag) && |p| + |tail| == a.size && a.hash(p + tail) != a.sha256
    ensures var t := Receive(a, s, Response(206, Some(etag), Some(|p|), None, [tail], false), true);
            t.1 == Err(HashMismatch) && t.0.disk == Disk(None, None, None, [p + tail])
  {
    var o := Report(Open(s, Some(etag), true), |p|);
    WriteOneChunk(a, o, tail, |p|);
    assert [] + [p + tail] == [p + tail];
  }

  /** A call reaches such a disk when the old representation, whose beginning is p, is no
      longer served: its first state after the response is torn and inconsistent. */
  lemma ReachTornDisk(a: Artifact, rep: string -> Bytes, p: Bytes, whole: Bytes, before: string, etag: string)
    requires 0 < |p| <= |whole| == a.size && p <= rep(before) && rep(etag) == whole && !(p <= whole)
    requires !Words.IsBlank(before) && !Words.IsBlank(etag) && before != etag
    ensures var t := DownloadModel(a, Roomy(a, whole, etag), Begin(TornDisk(p, before)));
            && Consistent(rep, TornDisk(p, before)) && Conforming(rep, Roomy(a, whole, etag))
            && (exists i :: 0 <= i < |t.0.points| && t.0.points[i] == Point(TornDisk(p, etag), true))
            && !Consistent(rep, TornDisk(p, etag))
  {
    var w, s := Roomy(a, whole, etag), Begin(TornDisk(p, before));
    ServingConforms(a, rep, whole, etag);
    assert RequestFor(s.disk) == Request(|p|, Some(before));
    var r := w.server(0, RequestFor(s.disk));
    assert r == Response(200, Some(etag), None, None, [whole], false);
    assert DropOversized(a, s) == s && DropUnnamed(s) == s;
    assert Decide(a, |p|, Some(before), false, r) == Replace;
    assert TornByTry(a, w, s, false) == [TornDisk(p, etag)];
    TryTears(a, w, s, false);
    var t := TryOnce(a, w, s, false);
    assert TornDisks(t.0.points) == [TornDisk(p, etag)] by { assert [] + [TornDisk(p, etag)] == [TornDisk(p, etag)]; }
    var i := TornIndex(t.0.points, TornDisk(p, etag));
    assert t.1.Some? && DownloadModel(a, w, s).0 == t.0;
    assert DownloadModel(a, w, s).0.points[i] == Point(TornDisk(p, etag), true);
    assert StoredEtag(TornDisk(p, etag)) == Some(etag) && StoredEtag(TornDisk(p, before)) == Some(before);
  }

  const OLD_MODEL: Bytes := [1, 4]
  const NEW_MODEL: Bytes := [2, 3]
  const HALF: Bytes := [1]
  const PINNED := Artifact(2, "good", (content: Bytes) => if content == NEW_MODEL then "good" else "bad")

  function TwoModels(etag: string): Bytes {
    if etag == "new" then NEW_MODEL else OLD_MODEL
  }

  /** A literal case: half of an old two-byte model is on disk when the server publishes
      another one. A crash at the torn state makes the next call glue the two and refuse. */
  lemma CrashMixesTwoModels()
    ensures var w := Roomy(PINNED, NEW_MODEL, "new");
            var call := DownloadModel(PINNED, w, Begin(TornDisk(HALF, "old")));
            var next := DownloadModel(PINNED, w, Begin(TornDisk(HALF, "new")));
            && Consistent(TwoModels, TornDisk(HALF, "old")) && Conforming(TwoModels, w)
            && (exists i :: 0 <= i < |call.0.points| && call.0.points[i] == Point(TornDisk(HALF, "new"), true))
            && !Consistent(TwoModels, TornDisk(HALF, "new"))
            && next.1 == Err(HashMismatch) && next.0.disk == Disk(None, None, None, [[1, 3]])
  {
    assert "new"[0] == 'n' && "old"[0] == 'o';
    assert HALF == OLD_MODEL[..1] && HALF[0] != NEW_MODEL[0];
    ReachTornDisk(PINNED, TwoModels, HALF, NEW_MODEL, "old", "new");
    assert HALF + NEW_MODEL[1..] == [1, 3];
    ResumeOnTornDisk(PINNED, HALF, NEW_MODEL, "new");
  }

  // ---- a server without ETags ----

  lemma {:induction false} ChunksFillOrOverflow(a: Artifact, s: Log, chunks: seq<Bytes>, downloaded: nat)
    requires s.disk.partial.Some? && downloaded <= a.size
    ensures var c := WriteChunks(a, s, chunks, downloaded);
            if downloaded + |Flatten(chunks)| > a.size
            then c.overflow && c.log.disk.partial.None? && c.log.disk.etag.None?
            else && !c.overflow && c.downloaded == downloaded + |Flatten(chunks)|
                 && c.log.disk == s.disk.(partial := Some(s.disk.partial.value + Flatten(chunks)))
    decreases |chunks|
  {
    var p := s.disk.partial.value;
    if chunks == [] {
      assert p + [] == p;
    } else {
      var next := downloaded + |chunks[0]|;
      assert |Flatten(chunks)| == |chunks[0]| + |Flatten(chunks[1..])|;
      if next <= a.size {
        ChunksFillOrOverflow(a, Report(Append(s, chunks[0]), next), chunks[1..], next);
        assert p + Flatten(chunks) == p + chunks[0] + Flatten(chunks[1..]);
      }
    }
  }

  /** The log with which the first request of a call is sent, unless the destination is good. */
  function FirstRequest(a: Artifact, d: Disk): Log {
    DropUnnamed(DropOversized(a, if d.destination.Some? then QuarantineDestination(Begin(d)) else Begin(d)))
  }

  /** What a whole response without an ETag leaves mixed: content that stops short of the
      pinned size, beside the ETag of another representation, which it does not begin. */
  ghost predicate Misnamed(a: Artifact, rep: string -> Bytes, stored: Option<string>, r: Response)
    requires r.Response?
  {
    var body := Flatten(r.chunks);
    && body != [] && |body| <= a.size && (r.brokenOff || |body| < a.size)
    && stored.Some? && !(body <= rep(stored.value))
  }

  lemma ReceiveWithoutEtag(a: Artifact, rep: string -> Bytes, s: Log, r: Response)
    requires r.Response? && r.etag.None?
    ensures var t := Receive(a, s, r, false);
            && (|Flatten(r.chunks)| > a.size ==> t.1 == Err(DownloadOverflow))
            && (|Flatten(r.chunks)| <= a.size && r.brokenOff ==> t.1 == Err(Network))
            && (|Flatten(r.chunks)| < a.size && !r.brokenOff ==> t.1 == Err(SizeMismatch))
            && (Consistent(rep, t.0.disk) <==> !Misnamed(a, rep, StoredEtag(s.disk), r))
  {
    var body := Flatten(r.chunks);
    var o := Report(Open(s, None, false), 0);
    ChunksFillOrOverflow(a, o, r.chunks, 0);
    assert [] + body == body;
    if |body| <= a.size && !r.brokenOff {
      var c := WriteChunks(a, o, r.chunks, 0);
    }
  }

  /** A whole response without an ETag leaves the stored one beside the new content. For every
      disk without a good destination and every such response, the call ends with a consistent
      disk exactly when nothing is misnamed by that. */
  lemma MissingEtagConsistentIff(a: Artifact, rep: string -> Bytes, w: World, d: Disk, r: Response)
    requires !(d.destination.Some? && Verified(a, d.destination.value))
    requires w.available(0) >= Required(a, w, FirstRequest(a, d).disk)
    requires r == w.server(0, RequestFor(FirstRequest(a, d).disk))
    requires r.Response? && r.status == 200 && r.etag.None? && !TooLong(a, 0, r)
    ensures var t := DownloadModel(a, w, Begin(d));
            var stored := if PartialLength(d) > a.size then None else StoredEtag(d);
            && (|Flatten(r.chunks)| <= a.size && r.brokenOff ==> t.1 == Err(Network))
            && (|Flatten(r.chunks)| < a.size && !r.brokenOff ==> t.1 == Err(SizeMismatch))
            && (Consistent(rep, t.0.disk) <==> !Misnamed(a, rep, stored, r))
  {
    var s := if d.destination.Some? then QuarantineDestination(Begin(d)) else Begin(d);
    var u := FirstRequest(a, d);
    var sent := u.(requests := 1);
    ReceiveWithoutEtag(a, rep, sent, r);
    assert Decide(a, PartialLength(u.disk), StoredEtag(u.disk), false, r) == Replace;
    assert TryOnce(a, w, DropOversized(a, s), false) == Act(a, sent, false, r);
  }

  const SHORT: Bytes := [2]

  /** A literal case: half of the old model is on disk and the server, without naming it, sends
      half of the new one. */
  lemma ResponseWithoutEtagMixesModels(brokenOff: bool)
    ensures var r := Response(200, None, None, None, [SHORT], brokenOff);
            var w := World((n: nat, q: Request) => r, (n: nat) => 2, 0);
            var d := DownloadModel(PINNED, w, Begin(TornDisk(HALF, "old"))).0.disk;
            Consistent(TwoModels, TornDisk(HALF, "old")) && !Consistent(TwoModels, d)
  {
    var r := Response(200, None, None, None, [SHORT], brokenOff);
    var w := World((n: nat, q: Request) => r, (n: nat) => 2, 0);
    var d := TornDisk(HALF, "old");
    assert "new"[0] == 'n' && "old"[0] == 'o';
    FlattenOne(SHORT);
    assert StoredEtag(d) == Some("old") && FirstRequest(PINNED, d) == Begin(d);
    assert HALF == OLD_MODEL[..1] && SHORT[0] != OLD_MODEL[0];
    MissingEtagConsistentIff(PINNED, TwoModels, w, d, r);
  }

  // ---- what a call comes to ----

  /** What of the partial file can be resumed: all of it if it is within the pinned size and
      an ETag is stored that is not blank, and otherwise nothing. */
  function Resumable(a: Artifact, d: Disk): Bytes {
    if d.partial.Some? && |d.partial.value| <= a.size && d.etag.Some? && !Words.IsBlank(d.etag.value) then d.partial.value
    else []
  }

  /** The request for the rest of p, or for everything if p is empty. */
  function RequestAfter(p: Bytes, etag: Option<string>): Request {
    if p == [] then Request(0, None) else Request(|p|, etag)
  }

  /** A response that continues p, or one that carries everything. */
  predicate Usable(p: Bytes, stored: Option<string>, r: Response) {
    r.Response? &&
    (r.status == 200 || (r.status == 206 && (p == [] || (r.rangeStart == Some(|p|) && r.etag == stored))))
  }

  /** The range asked for, but of another representation. */
  predicate Changed(p: Bytes, stored: Option<string>, r: Response) {
    r.Response? && r.status == 206 && p != [] && r.rangeStart == Some(|p|) && r.etag != stored
  }

  /** What p is continued from: p itself under a 206, and nothing under a 200. */
  function Kept(p: Bytes, r: Response): Bytes
    requires r.Response?
  {
    if r.status == 206 then p else []
  }

  function Content(p: Bytes, r: Response): Bytes
    requires r.Response?
  {
    Kept(p, r) + Flatten(r.chunks)
  }

  /** Content-Length is absent or at most what is missing. */
  predicate Fits(a: Artifact, p: Bytes, r: Response)
    requires r.Response?
  {
    r.contentLength.Some? ==> |Kept(p, r)| + r.contentLength.value <= a.size
  }

  /** Success and every failure, each exactly under its condition. */
  ghost predicate Outcome(a: Artifact, p: Bytes, stored: Option<string>, r: Response, result: Result) {
    && (result.Ok? <==> Usable(p, stored, r) && Fits(a, p, r) && !r.brokenOff && Verified(a, Content(p, r)))
    && (result.Ok? ==> result == Ok(false, |Flatten(r.chunks)|))
    && (result == Err(DownloadOverflow) <==> Usable(p, stored, r) && (!Fits(a, p, r) || |Content(p, r)| > a.size))
    && (result == Err(SizeMismatch) <==>
          Usable(p, stored, r) && Fits(a, p, r) && !r.brokenOff && |Content(p, r)| < a.size)
    && (result == Err(HashMismatch) <==>
          Usable(p, stored, r) && Fits(a, p, r) && !r.brokenOff && |Content(p, r)| == a.size
          && a.hash(Content(p, r)) != a.sha256)
    && (result == Err(Network) <==>
          r.Unreachable? || (Usable(p, stored, r) && Fits(a, p, r) && r.brokenOff && |Content(p, r)| <= a.size))
    && (result == Err(InvalidResume) <==> r.Response? && 200 <= r.status < 300 && !Usable(p, stored, r))
    && (forall n :: result == Err(HttpStatus(n)) <==> r.Response? && r.status == n && !(200 <= n < 300))
    && (result.Err? ==> !result.error.InsufficientDisk?)
  }

  /** The disk such a call leaves: the content is installed, or set aside if it is wrong, or
      kept to be resumed if it is incomplete; a refused response changes nothing. */
  ghost predicate Leaves(a: Artifact, p: Bytes, r: Response, before: Disk, result: Result, after: Disk) {
    && (result.Ok? ==> r.Response? && after == Disk(None, None, Some(Content(p, r)), before.quarantined))
    && (result == Err(SizeMismatch) || (result == Err(Network) && r.Response?) ==>
          r.Response? && after == before.(partial := Some(Content(p, r)), etag := if r.etag.Some? then r.etag else before.etag))
    && (result == Err(HashMismatch) ==>
          r.Response? && after == before.(partial := None, etag := None, quarantined := before.quarantined + [Content(p, r)]))
    && (result.Err? && (result.error.InvalidResume? || result.error.HttpStatus? || r.Unreachable?) ==> after == before)
  }

  /** A disk from which p is resumed. */
  ghost predicate Ready(a: Artifact, p: Bytes, d: Disk) {
    && d.destination.None? && PartialLength(d) == |p| <= a.size
    && (p != [] ==> d.partial == Some(p) && StoredEtag(d).Some?)
  }

  lemma InstallOutcome(a: Artifact, s: Log, content: Bytes, added: nat)
    requires s.disk.partial == Some(content) && s.disk.destination.None?
    ensures var t := Install(a, s, |content|, added);
            && (Verified(a, content) ==>
                  t.1 == Ok(false, added) && t.0.disk == Disk(None, None, Some(content), s.disk.quarantined))
            && (|content| != a.size ==> t == (s, Err(SizeMismatch)))
            && (|content| == a.size && a.hash(content) != a.sha256 ==>
                  t.1 == Err(HashMismatch)
                  && t.0.disk == s.disk.(partial := None, etag := None, quarantined := s.disk.quarantined + [content]))
            && t.0.requests == s.requests
  {}

  lemma OpenedDisk(s: Log, etag: Option<string>, append: bool)
    requires append ==> s.disk.partial.Some?
    ensures var o := Open(s, etag, append);
            && o.requests == s.requests
            && o.disk == s.disk.(partial := Some(if append then s.disk.partial.value else []),
                                 etag := if etag.Some? then etag else s.disk.etag)
  {}

  lemma {:induction false} ChunksSendNothing(a: Artifact, s: Log, chunks: seq<Bytes>, downloaded: nat)
    ensures WriteChunks(a, s, chunks, downloaded).log.requests == s.requests
    decreases |chunks|
  {
    if chunks != [] {
      var next := downloaded + |chunks[0]|;
      ChunksSendNothing(a, Report(Append(s, chunks[0]), next), chunks[1..], next);
    }
  }

  /** The result of receiving a body after `kept`, and the disk it leaves. */
  ghost predicate Received(a: Artifact, kept: Bytes, r: Response, before: Disk, t: (Log, Result))
    requires r.Response?
  {
    var content := kept + Flatten(r.chunks);
    var stored := before.(partial := Some(content), etag := if r.etag.Some? then r.etag else before.etag);
    if |content| > a.size then t.1 == Err(DownloadOverflow)
    else if r.brokenOff then t.1 == Err(Network) && t.0.disk == stored
    else if |content| < a.size then t.1 == Err(SizeMismatch) && t.0.disk == stored
    else if a.hash(content) == a.sha256 then
      t.1 == Ok(false, |Flatten(r.chunks)|) && t.0.disk == Disk(None, None, Some(content), before.quarantined)
    else
      t.1 == Err(HashMismatch)
      && t.0.disk == before.(partial := None, etag := None, quarantined := before.quarantined + [content])
  }

  lemma ReceiveOutcome(a: Artifact, s: Log, r: Response, append: bool, kept: Bytes)
    requires r.Response? && s.disk.destination.None? && |kept| <= a.size
    requires if append then s.disk.partial == Some(kept) else kept == []
    ensures Received(a, kept, r, s.disk, Receive(a, s, r, append))
    ensures Receive(a, s, r, append).0.requests == s.requests
  {
    var o := Report(Open(s, r.etag, append), |kept|);
    OpenedDisk(s, r.etag, append);
    ChunksFillOrOverflow(a, o, r.chunks, |kept|);
    ChunksSendNothing(a, o, r.chunks, |kept|);
    var c := WriteChunks(a, o, r.chunks, |kept|);
    if !c.overflow {
      InstallOutcome(a, c.log, kept + Flatten(r.chunks), |Flatten(r.chunks)|);
    }
  }

  lemma DecisionOf(a: Artifact, p: Bytes, stored: Option<string>, restarted: bool, r: Response)
    requires |p| <= a.size && !Changed(p, stored, r)
    ensures var c := Decide(a, |p|, stored, restarted, r);
            if r.Unreachable? then c == Refuse(Network)
            else if !(200 <= r.status < 300) then c == Refuse(HttpStatus(r.status))
            else if !Usable(p, stored, r) then c == Refuse(InvalidResume)
            else if !Fits(a, p, r) then c == Refuse(DownloadOverflow)
            else c == (if Kept(p, r) != [] then Resume else Replace)
  {}

  lemma OutcomeOfReceived(a: Artifact, p: Bytes, stored: Option<string>, r: Response, before: Disk, t: (Log, Result))
    requires Usable(p, stored, r) && Fits(a, p, r) && Received(a, Kept(p, r), r, before, t)
    ensures Outcome(a, p, stored, r, t.1) && Leaves(a, p, r, before, t.1, t.0.disk)
  {}

  lemma OutcomeOfRefusal(a: Artifact, p: Bytes, stored: Option<string>, r: Response, before: Disk, error: Error)
    requires if r.Unreachable? then error == Network
             else if !(200 <= r.status < 300) then error == HttpStatus(r.status)
             else if !Usable(p, stored, r) then error == InvalidResume
             else error == DownloadOverflow && !Fits(a, p, r)
    ensures Outcome(a, p, stored, r, Err(error)) && Leaves(a, p, r, before, Err(error), before)
  {}

  lemma ActOutcome(a: Artifact, s: Log, restarted: bool, r: Response, p: Bytes)
    requires Ready(a, p, s.disk) && !Changed(p, StoredEtag(s.disk), r)
    ensures var t := Act(a, s, restarted, r);
            && t.1.Some? && t.0.requests == s.requests
            && Outcome(a, p, StoredEtag(s.disk), r, t.1.value)
            && Leaves(a, p, r, s.disk, t.1.value, t.0.disk)
  {
    var stored := StoredEtag(s.disk);
    DecisionOf(a, p, stored, restarted, r);
    match Decide(a, |p|, stored, restarted, r)
    case Refuse(error) =>
      OutcomeOfRefusal(a, p, stored, r, s.disk, error);
    case Resume =>
      ReceiveOutcome(a, s, r, true, p);
      OutcomeOfReceived(a, p, stored, r, s.disk, Receive(a, s, r, true));
    case Replace =>
      ReceiveOutcome(a, s, r, false, []);
      OutcomeOfReceived(a, p, stored, r, s.disk, Receive(a, s, r, false));
  }

  /** What had to be set aside before the first request. */
  function SetAside(a: Artifact, d: Disk): seq<Bytes> {
    (if d.destination.Some? then [d.destination.value] else []) +
    (if d.partial.Some? && |d.partial.value| > a.size then [d.partial.value] else [])
  }

  lemma FirstDisk(a: Artifact, d: Disk)
    ensures var u, p := FirstRequest(a, d), Resumable(a, d);
            && u.requests == 0 && Ready(a, p, u.disk)
            && (p != [] ==> StoredEtag(u.disk) == d.etag)
            && RequestFor(u.disk) == RequestAfter(p, d.etag)
            && u.disk.quarantined == d.quarantined + SetAside(a, d)
  {
    assert d.quarantined + [] == d.quarantined;
  }

  lemma CallOfFirstTry(a: Artifact, w: World, d: Disk)
    requires !(d.destination.Some? && Verified(a, d.destination.value))
    ensures var u, p := FirstRequest(a, d), Resumable(a, d);
            var r := w.server(0, RequestAfter(p, d.etag));
            var needed := a.size - |p| + w.margin;
            var t := Act(a, u.(requests := 1), false, r);
            && (w.available(0) < needed ==> DownloadModel(a, w, Begin(d)) == (u, Err(InsufficientDisk(w.available(0), needed))))
            && (w.available(0) >= needed ==>
                  DownloadModel(a, w, Begin(d)) == if t.1.Some? then (t.0, t.1.value) else RequestLoop(a, w, t.0, true))
  {
    FirstDisk(a, d);
  }

  /** A call whose first response does not name a changed representation, on every disk without
      a good destination and against every server: one request, with the outcome and the disk
      that its content calls for; without the space for what is missing, no request. */
  lemma OneRequestOutcome(a: Artifact, w: World, d: Disk)
    requires !(d.destination.Some? && Verified(a, d.destination.value))
    ensures var p := Resumable(a, d);
            var needed := a.size - |p| + w.margin;
            var r := w.server(0, RequestAfter(p, d.etag));
            var t := DownloadModel(a, w, Begin(d));
            && (w.available(0) < needed ==> t.1 == Err(InsufficientDisk(w.available(0), needed)) && t.0.requests == 0)
            && (w.available(0) >= needed && !Changed(p, d.etag, r) ==>
                  && t.0.requests == 1
                  && Outcome(a, p, d.etag, r, t.1)
                  && Leaves(a, p, r, FirstRequest(a, d).disk, t.1, t.0.disk))
  {
    var u, p := FirstRequest(a, d), Resumable(a, d);
    var r := w.server(0, RequestAfter(p, d.etag));
    FirstDisk(a, d);
    CallOfFirstTry(a, w, d);
    if !Changed(p, d.etag, r) {
      ActOutcome(a, u.(requests := 1), false, r, p);
    }
  }

  lemma SecondTry(a: Artifact, w: World, s: Log)
    requires Ready(a, [], s.disk) && s.disk.partial.None? && StoredEtag(s.disk).None? && s.requests == 1
    ensures var r := w.server(1, Request(0, None));
            var t := RequestLoop(a, w, s, true);
            && (w.available(1) < a.size + w.margin ==> t == (s, Err(InsufficientDisk(w.available(1), a.size + w.margin))))
            && (w.available(1) >= a.size + w.margin ==>
                  t.0.requests == 2 && Outcome(a, [], None, r, t.1) && Leaves(a, [], r, s.disk, t.1, t.0.disk))
  {
    ActOutcome(a, s.(requests := 2), true, w.server(1, Request(0, None)), []);
    assert TryOnce(a, w, s, true).1.Some?;
  }

  /** When the first response names a changed representation, the partial file is dropped and
      the outcome is that of asking for everything. */
  lemma TwoRequestOutcome(a: Artifact, w: World, d: Disk)
    requires !(d.destination.Some? && Verified(a, d.destination.value))
    requires w.available(0) >= a.size - |Resumable(a, d)| + w.margin
    requires Changed(Resumable(a, d), d.etag, w.server(0, RequestAfter(Resumable(a, d), d.etag)))
    ensures var r := w.server(1, Request(0, None));
            var t := DownloadModel(a, w, Begin(d));
            && (w.available(1) < a.size + w.margin ==>
                  t.1 == Err(InsufficientDisk(w.available(1), a.size + w.margin)) && t.0.requests == 1)
            && (w.available(1) >= a.size + w.margin ==>
                  && t.0.requests == 2
                  && Outcome(a, [], None, r, t.1)
                  && Leaves(a, [], r, FirstRequest(a, d).disk.(partial := None, etag := None), t.1, t.0.disk))
  {
    var u, p := FirstRequest(a, d), Resumable(a, d);
    var r := w.server(0, RequestAfter(p, d.etag));
    FirstDisk(a, d);
    CallOfFirstTry(a, w, d);
    SecondTry(a, w, Act(a, u.(requests := 1), false, r).0);
  }

  /** The response a server that has `whole` gives to a request with p on disk: all of it, or,
      if p is not empty, the rest under the stored ETag. Content-Length is exact or absent. */
  ghost predicate Serves(whole: Bytes, p: Bytes, stored: Option<string>, r: Response) {
    && r.Response? && !r.brokenOff
    && (r.contentLength.Some? ==> r.contentLength.value == |Flatten(r.chunks)|)
    && if r.status == 206 && p != []
       then r.rangeStart == Some(|p|) && r.etag == stored && p + Flatten(r.chunks) == whole
       else (r.status == 200 || r.status == 206) && Flatten(r.chunks) == whole
  }

  lemma ServedWhole(a: Artifact, whole: Bytes, p: Bytes, stored: Option<string>, r: Response)
    requires Verified(a, whole) && Serves(whole, p, stored, r)
    ensures Usable(p, stored, r) && Fits(a, p, r) && Content(p, r) == whole && !Changed(p, stored, r)
    ensures |Flatten(r.chunks)| == |whole| - |Kept(p, r)|
  {
    assert [] + Flatten(r.chunks) == Flatten(r.chunks);
  }

  /** Ordinary downloads succeed: from every disk without a good destination, with enough
      space, against every server that serves verified content, whole or from the position
      asked for, and with or without Content-Length. What was there before is set aside. */
  lemma OrdinaryDownloadSucceeds(a: Artifact, whole: Bytes, w: World, d: Disk)
    requires Verified(a, whole) && !(d.destination.Some? && Verified(a, d.destination.value))
    requires w.available(0) >= a.size - |Resumable(a, d)| + w.margin
    requires Serves(whole, Resumable(a, d), d.etag, w.server(0, RequestAfter(Resumable(a, d), d.etag)))
    ensures var p := Resumable(a, d);
            var resumed := if w.server(0, RequestAfter(p, d.etag)).status == 206 then |p| else 0;
            var t := DownloadModel(a, w, Begin(d));
            && t.1 == Ok(false, |whole| - resumed) && t.0.requests == 1
            && t.0.disk == Disk(None, None, Some(whole), d.quarantined + SetAside(a, d))
  {
    var p := Resumable(a, d);
    FirstDisk(a, d);
    ServedWhole(a, whole, p, d.etag, w.server(0, RequestAfter(p, d.etag)));
    OneRequestOutcome(a, w, d);
  }

  /** So do downloads resumed after the representation changed: one more request. */
  lemma ChangedDownloadSucceeds(a: Artifact, whole: Bytes, w: World, d: Disk)
    requires Verified(a, whole) && !(d.destination.Some? && Verified(a, d.destination.value))
    requires w.available(0) >= a.size - |Resumable(a, d)| + w.margin && w.available(1) >= a.size + w.margin
    requires Changed(Resumable(a, d), d.etag, w.server(0, RequestAfter(Resumable(a, d), d.etag)))
    requires Serves(whole, [], None, w.server(1, Request(0, None)))
    ensures var t := DownloadModel(a, w, Begin(d));
            && t.1 == Ok(false, |whole|) && t.0.requests == 2
            && t.0.disk == Disk(None, None, Some(whole), d.quarantined + SetAside(a, d))
  {
    FirstDisk(a, d);
    ServedWhole(a, whole, [], None, w.server(1, Request(0, None)));
    TwoRequestOutcome(a, w, d);
  }

  /** A good destination is used as it is, without a request. */
  lemma GoodDestinationIsReused(a: Artifact, w: World, d: Disk)
    ensures DownloadModel(a, w, Begin(d)).1 == Ok(true, 0) <==>
              d.destination.Some? && |d.destination.value| == a.size && a.hash(d.destination.value) == a.sha256
    ensures DownloadModel(a, w, Begin(d)).1 == Ok(true, 0) ==>
              DownloadModel(a, w, Begin(d)).0.disk == d && DownloadModel(a, w, Begin(d)).0.requests == 0
  {
    if !(d.destination.Some? && Verified(a, d.destination.value)) {
      ArbitraryServerIsSafe(a, w, d);
      var s := if d.destination.Some? then QuarantineDestination(Begin(d)) else Begin(d);
      PreparedSafe(a, d, s);
      TwoTriesSafe(a, w, d, DropOversized(a, s));
    }
  }

  // ---- every state on the way ----

  /** One operation on the files: the partial file is removed, emptied or appended to, the ETag
      is stored or removed, a file is set aside, or the partial file becomes the destination. */
  predicate OneOperation(x: Disk, y: Disk) {
    || y == x
    || (y == x.(partial := y.partial)
        && (y.partial.None? || y.partial == Some([]) || (x.partial.Some? && x.partial.value <= y.partial.value)))
    || y == x.(etag := y.etag)
    || (x.partial.Some? && y == x.(partial := None, quarantined := x.quarantined + [x.partial.value]))
    || (x.destination.Some? && y == x.(destination := None, quarantined := x.quarantined + [x.destination.value]))
    || (x.destination.None? && y == x.(destination := x.partial, partial := None))
  }

  /** The recorded states lead from disk d to the present one, an operation at a time. */
  ghost predicate Recorded(d: Disk, s: Log) {
    if s.points == [] then s.disk == d
    else
      && OneOperation(d, s.points[0].disk)
      && (forall i | 0 < i < |s.points| :: OneOperation(s.points[i - 1].disk, s.points[i].disk))
      && s.disk == s.points[|s.points| - 1].disk
  }

  lemma RecordAt(d: Disk, s: Log, y: Disk)
    requires Recorded(d, s) && OneOperation(s.disk, y)
    ensures Recorded(d, At(s, y))
  {}

  lemma SetAsideRecorded(d: Disk, s: Log)
    requires Recorded(d, s)
    ensures Recorded(d, QuarantinePartial(s)) && Recorded(d, RemoveEtag(QuarantinePartial(s)))
    ensures Recorded(d, QuarantineDestination(s))
    ensures Recorded(d, RemovePartial(s)) && Recorded(d, RemoveEtag(RemovePartial(s)))
  {
    RecordAt(d, s, QuarantinePartial(s).disk);
    RecordAt(d, QuarantinePartial(s), RemoveEtag(QuarantinePartial(s)).disk);
    RecordAt(d, s, QuarantineDestination(s).disk);
    RecordAt(d, s, RemovePartial(s).disk);
    RecordAt(d, RemovePartial(s), RemoveEtag(RemovePartial(s)).disk);
  }

  lemma {:induction false} ChunksRecorded(a: Artifact, d: Disk, s: Log, chunks: seq<Bytes>, downloaded: nat)
    requires Recorded(d, s) && s.disk.partial.Some?
    ensures Recorded(d, WriteChunks(a, s, chunks, downloaded).log)
    decreases |chunks|
  {
    if chunks != [] {
      var next := downloaded + |chunks[0]|;
      if next > a.size {
        SetAsideRecorded(d, s);
      } else {
        RecordAt(d, s, Append(s, chunks[0]).disk);
        ChunksRecorded(a, d, Report(Append(s, chunks[0]), next), chunks[1..], next);
      }
    }
  }

  lemma PlaceRecorded(d: Disk, s: Log)
    requires Recorded(d, s) && s.disk.destination.None?
    ensures Recorded(d, RemoveEtag(Place(s)))
  {
    RecordAt(d, s, Place(s).disk);
    RecordAt(d, Place(s), RemoveEtag(Place(s)).disk);
  }

  lemma InstallRecorded(a: Artifact, d: Disk, s: Log, downloaded: nat, added: nat)
    requires Recorded(d, s)
    ensures Recorded(d, Install(a, s, downloaded, added).0)
  {
    SetAsideRecorded(d, s);
    if s.disk.destination.Some? {
      PlaceRecorded(d, QuarantineDestination(s));
    } else {
      PlaceRecorded(d, s);
    }
  }

  lemma ReceiveRecorded(a: Artifact, d: Disk, s: Log, r: Response, append: bool)
    requires Recorded(d, s) && r.Response? && (append ==> s.disk.partial.Some?)
    ensures Recorded(d, Receive(a, s, r, append).0)
  {
    var offset := if append then PartialLength(s.disk) else 0;
    var o := Report(Open(s, r.etag, append), offset);
    OpenedDisk(s, r.etag, append);
    ChunksRecorded(a, d, o, r.chunks, offset);
    var c := WriteChunks(a, o, r.chunks, offset);
    InstallRecorded(a, d, c.log, c.downloaded, SaturatingSub(c.downloaded, offset));
  }

  lemma ActRecorded(a: Artifact, d: Disk, s: Log, restarted: bool, r: Response)
    requires Recorded(d, s)
    ensures Recorded(d, Act(a, s, restarted, r).0)
  {
    match Decide(a, PartialLength(s.disk), StoredEtag(s.disk), restarted, r)
    case Refuse(_) =>
    case StartOver => SetAsideRecorded(d, s);
    case Resume => ReceiveRecorded(a, d, s, r, true);
    case Replace => ReceiveRecorded(a, d, s, r, false);
  }

  lemma TryRecorded(a: Artifact, w: World, d: Disk, s: Log, restarted: bool)
    requires Recorded(d, s)
    ensures Recorded(d, TryOnce(a, w, s, restarted).0)
  {
    SetAsideRecorded(d, s);
    var u := DropUnnamed(s);
    if w.available(u.requests) >= Required(a, w, u.disk) {
      var r := w.server(u.requests, RequestFor(u.disk));
      TrySends(a, w, s, restarted, u, r);
      ActRecorded(a, d, u.(requests := u.requests + 1), restarted, r);
    }
  }

  lemma SecondRecorded(a: Artifact, w: World, d: Disk, s: Log)
    requires Recorded(d, s)
    ensures Recorded(d, RequestLoop(a, w, s, true).0)
  {
    TryRecorded(a, w, d, s, true);
  }

  lemma LoopRecorded(a: Artifact, w: World, d: Disk, s: Log)
    requires Recorded(d, s)
    ensures Recorded(d, RequestLoop(a, w, s, false).0)
  {
    TryRecorded(a, w, d, s, false);
    SecondRecorded(a, w, d, TryOnce(a, w, s, false).0);
  }

  /** No state that a crash could leave is missing from those the safety and consistency results
      speak of: they lead from the first disk to the last, one file operation at a time. */
  lemma EveryStateIsRecorded(a: Artifact, w: World, d: Disk)
    ensures Recorded(d, DownloadModel(a, w, Begin(d)).0)
  {
    var s := if d.destination.Some? then QuarantineDestination(Begin(d)) else Begin(d);
    LoopRecorded(a, w, d, DropOversized(a, s));
    assert Recorded(d, Report(Begin(d), a.size));
  }

  // ---- progress ----

  /** After each chunk, how much has been received. */
  function Totals(start: nat, chunks: seq<Bytes>): seq<nat> {
    seq(|chunks|, i requires 0 <= i < |chunks| => start + |Flatten(chunks[..i + 1])|)
  }

  lemma FlattenLength(chunks: seq<Bytes>, k: nat)
    requires chunks != [] && k < |chunks|
    ensures |Flatten(chunks[..k + 1])| == |chunks[0]| + |Flatten(chunks[1..][..k])|
  {
    assert chunks[..k + 1][1..] == chunks[1..][..k];
  }

  lemma TotalsFirst(start: nat, chunks: seq<Bytes>)
    requires chunks != []
    ensures Totals(start, chunks) == [start + |chunks[0]|] + Totals(start + |chunks[0]|, chunks[1..])
  {
    forall i | 0 <= i < |chunks|
      ensures Totals(start, chunks)[i] == ([start + |chunks[0]|] + Totals(start + |chunks[0]|, chunks[1..]))[i]
    {
      FlattenLength(chunks, i);
      assert Flatten(chunks[1..][..0]) == [];
    }
  }

  lemma {:induction false} ChunksReport(a: Artifact, s: Log, chunks: seq<Bytes>, downloaded: nat)
    requires downloaded + |Flatten(chunks)| <= a.size
    ensures WriteChunks(a, s, chunks, downloaded).log.progress == s.progress + Totals(downloaded, chunks)
    decreases |chunks|
  {
    if chunks == [] {
      assert s.progress + [] == s.progress;
    } else {
      var next := downloaded + |chunks[0]|;
      ChunksReport(a, Report(Append(s, chunks[0]), next), chunks[1..], next);
      TotalsFirst(downloaded, chunks);
      assert s.progress + [next] + Totals(next, chunks[1..]) == s.progress + ([next] + Totals(next, chunks[1..]));
    }
  }

  lemma ReceiveReports(a: Artifact, s: Log, r: Response, append: bool, kept: Bytes)
    requires r.Response? && |kept| + |Flatten(r.chunks)| <= a.size && s.progress == []
    requires if append then s.disk.partial == Some(kept) else kept == []
    ensures Receive(a, s, r, append).0.progress == [|kept|] + Totals(|kept|, r.chunks)
  {
    var o := Report(Open(s, r.etag, append), |kept|);
    OpenedDisk(s, r.etag, append);
    assert o.progress == [|kept|];
    ChunksFillOrOverflow(a, o, r.chunks, |kept|);
    ChunksReport(a, o, r.chunks, |kept|);
    var c := WriteChunks(a, o, r.chunks, |kept|);
  }

  /** What an ordinary download reports: where it resumes, and then the total after every
      chunk, so that the last report is the whole size. */
  lemma OrdinaryDownloadReports(a: Artifact, whole: Bytes, w: World, d: Disk, p: Bytes, r: Response)
    requires Verified(a, whole) && !(d.destination.Some? && Verified(a, d.destination.value))
    requires p == Resumable(a, d) && w.available(0) >= a.size - |p| + w.margin
    requires r == w.server(0, RequestAfter(p, d.etag)) && Serves(whole, p, d.etag, r)
    ensures DownloadModel(a, w, Begin(d)).0.progress == [|Kept(p, r)|] + Totals(|Kept(p, r)|, r.chunks)
    ensures |Kept(p, r)| + |Flatten(r.chunks)| == a.size
  {
    var u := FirstRequest(a, d);
    var sent := u.(requests := 1);
    FirstDisk(a, d);
    CallOfFirstTry(a, w, d);
    ServedWhole(a, whole, p, d.etag, r);
    DecisionOf(a, p, StoredEtag(u.disk), false, r);
    assert u.progress == [];
    if Kept(p, r) != [] {
      ReceiveReports(a, sent, r, true, p);
    } else {
      ReceiveReports(a, sent, r, false, []);
    }
  }
}
