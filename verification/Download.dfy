/**
 A download that survives network failures: it resumes where the file ends if the server takes
 range requests, or starts again, and moves the file to its destination once it is complete.

 The resource is static. The environment is a server, a function of the requested start and of the
 number of the request, and a disk on which any operation may fail.
 */
module Downloading {
  import opened Basics

  newtype Byte = x: int | 0 <= x < 256

  /** The status and headers of a response, the chunks it delivers, and how its body ends. */
  datatype Response = Response(status: int, contentRangeStart: Option<nat>, acceptsByteRanges: bool,
                               contentLength: Option<nat>, chunks: seq<seq<Byte>>, complete: bool)

  /** A request fails in a way worth retrying, fails for good, or gets a response. */
  datatype Reply = TransientFailure | Refused | Got(response: Response)

  type Server = (nat, nat) -> Reply

  function Body(chunks: seq<seq<Byte>>): seq<Byte> {
    FlatMap(chunks, chunk => chunk)
  }

  const OK := 200
  const PARTIAL_CONTENT := 206

  /** Where the body starts in the resource; `None` if the response is not valid. */
  function ResponseRangeStart(r: Response): Option<nat> {
    if r.status == OK then Some(0)
    else if r.status == PARTIAL_CONTENT then r.contentRangeStart
    else if 200 <= r.status < 300 then Some(0)
    else None
  }

  /** A partial response starts where it says, and any other success at the beginning. */
  predicate StartsAt(r: Response, start: nat) {
    if r.status == 206 then r.contentRangeStart == Some(start) else 200 <= r.status <= 299 && start == 0
  }

  lemma RangeStartIs(r: Response)
    ensures forall start: nat :: ResponseRangeStart(r) == Some(start) <==> StartsAt(r, start)
    ensures ResponseRangeStart(r).None? <==>
              if r.status == 206 then r.contentRangeStart.None? else !(200 <= r.status <= 299)
  {}

  /**
   Sections 14.4 and 15.3.7 of RFC 9110, for an open-ended range of a static resource: a response
   covers the resource from its declared start, no later than the requested one, to the end.
   */
  ghost predicate Covers(resource: seq<Byte>, requested: nat, r: Response, start: nat) {
    && start <= requested && start <= |resource|
    && Body(r.chunks) <= resource[start..]
    && (r.complete ==> Body(r.chunks) == resource[start..])
    && (r.contentLength.Some? ==> r.contentLength.value == |resource| - start)
  }

  ghost predicate Honest(resource: seq<Byte>, requested: nat, r: Response) {
    && 200 <= r.status <= 299
    && (forall start: nat :: StartsAt(r, start) ==> Covers(resource, requested, r, start))
    && (requested == 0 ==> StartsAt(r, 0))
  }

  /** An answer to a plain request is the whole resource, whatever its status. */
  ghost predicate HonestServer(resource: seq<Byte>, server: Server) {
    forall requested: nat, n: nat :: requested <= |resource| && server(requested, n).Got? ==>
      Honest(resource, requested, server(requested, n).response)
  }

  // ---------------------------------------------------------------- files

  function Zeros(n: nat): (z: seq<Byte>)
    ensures |z| == n && forall i :: 0 <= i < n ==> z[i] == 0
  {
    seq(n, _ => 0)
  }

  /** Overwriting part of a file; a gap between its end and the position reads as zeros. */
  function WriteAt(content: seq<Byte>, at: nat, bytes: seq<Byte>): (r: seq<Byte>)
    ensures bytes != [] ==> |r| == if |content| < at + |bytes| then at + |bytes| else |content|
  {
    if bytes == [] then content
    else
      var padded := if |content| < at then content + Zeros(at - |content|) else content;
      var end := at + |bytes|;
      padded[..at] + bytes + if end < |padded| then padded[end..] else []
  }

  /** What is before `pos` is the resource, and nothing is beyond its end. */
  ghost predicate Holds(content: seq<Byte>, pos: nat, resource: seq<Byte>) {
    && pos <= |resource| && pos <= |content| <= |resource|
    && content[..pos] == resource[..pos]
  }

  lemma WriteExtends(content: seq<Byte>, pos: nat, bytes: seq<Byte>, resource: seq<Byte>)
    requires Holds(content, pos, resource) && bytes <= resource[pos..]
    ensures Holds(WriteAt(content, pos, bytes), pos + |bytes|, resource)
  {
    var r := WriteAt(content, pos, bytes);
    if bytes != [] {
      forall i | 0 <= i < pos + |bytes| ensures r[i] == resource[i] {
        if i < pos {
          assert r[i] == content[..pos][i];
        } else {
          assert r[i] == bytes[i - pos] == resource[pos..][i - pos];
        }
      }
    }
  }

  /** What a file holds at a position, once it is extended beyond it. */
  function Padded(content: seq<Byte>, i: nat): Byte {
    if i < |content| then content[i] else 0
  }

  /**
   Resuming at a position with the rest of the resource gives the resource exactly if, between what is
   known to be right and that position, the file happens to hold the resource: always so if the
   position is not beyond what is known to be right, whether or not space was allocated beforehand.
   */
  lemma ResumeCorrectIff(content: seq<Byte>, pos: nat, start: nat, resource: seq<Byte>)
    requires Holds(content, pos, resource) && start < |resource|
    ensures WriteAt(content, start, resource[start..]) == resource <==>
            forall i :: pos <= i < start ==> Padded(content, i) == resource[i]
  {
    var r := WriteAt(content, start, resource[start..]);
    ResumedAt(content, start, resource);
    forall i | 0 <= i < pos ensures Padded(content, i) == resource[i] {
      assert content[..pos][i] == resource[..pos][i];
    }
    if forall i :: pos <= i < start ==> Padded(content, i) == resource[i] {
      assert r == resource;
    } else {
      var i :| pos <= i < start && Padded(content, i) != resource[i];
      assert r[i] != resource[i];
    }
  }

  lemma ResumedAt(content: seq<Byte>, start: nat, resource: seq<Byte>)
    requires |content| <= |resource| && start < |resource|
    ensures var r := WriteAt(content, start, resource[start..]);
            && |r| == |resource|
            && forall i :: 0 <= i < |resource| ==> r[i] == if i < start then Padded(content, i) else resource[i]
  {
    var r := WriteAt(content, start, resource[start..]);
    forall i | 0 <= i < |resource| ensures r[i] == if i < start then Padded(content, i) else resource[i] {
      if i >= start {
        assert r[i] == resource[start..][i - start];
      }
    }
  }

  /** The disk: any operation on it may fail, and it remembers whether one did. */
  class Disk {
    var failed: bool
    var full: bool

    constructor ()
      ensures !failed && !full
    {
      failed, full := false, false;
    }

    method Try() returns (ok: bool)
      modifies this
      ensures full == old(full) && failed == (old(failed) || !ok)
    {
      ok := *;
      failed := failed || !ok;
    }

    method HasSpaceFor(len: nat) returns (ok: bool)
      modifies this
      ensures failed == old(failed) && full == (old(full) || !ok)
    {
      ok := *;
      full := full || !ok;
    }
  }

  class File {
    const disk: Disk
    var content: seq<Byte>
    var cursor: nat

    constructor (disk: Disk)
      ensures this.disk == disk && content == [] && cursor == 0
    {
      this.disk, content, cursor := disk, [], 0;
    }

    method Seek(offset: nat) returns (ok: bool)
      modifies this, disk
      ensures content == old(content)
      ensures ok ==> cursor == offset
      ensures disk.full == old(disk.full) && disk.failed == (old(disk.failed) || !ok)
    {
      ok := disk.Try();
      if ok {
        cursor := offset;
      }
    }

    /** On failure nothing is known of what was written. */
    method WriteAll(bytes: seq<Byte>) returns (ok: bool)
      modifies this, disk
      ensures ok ==> content == WriteAt(old(content), old(cursor), bytes)
      ensures ok ==> cursor == old(cursor) + |bytes|
      ensures disk.full == old(disk.full) && disk.failed == (old(disk.failed) || !ok)
    {
      ok := disk.Try();
      if ok {
        content := WriteAt(content, cursor, bytes);
        cursor := cursor + |bytes|;
      } else {
        content, cursor := *, *;
      }
    }

    /** Reserving space extends the file with zeros, if the system supports it. */
    method Allocate(len: nat)
      modifies this
      ensures cursor == old(cursor)
      ensures content == old(content) ||
              (|old(content)| <= len && content == old(content) + Zeros(len - |old(content)|))
    {
      var supported := *;
      if supported && |content| <= len {
        content := content + Zeros(len - |content|);
      }
    }
  }

  // ---------------------------------------------------------------- the downloader

  datatype SaveResult = Saved | NetworkError | IoError

  datatype Outcome = Done | RequestFailed | InvalidResponse | InsufficientSpace | FileError

  ghost predicate Progress(file: File, resource: seq<Byte>)
    reads file
  {
    Holds(file.content, file.cursor, resource)
  }

  method SaveChunksToFileAt(response: Response, file: File, offset: nat, ghost resource: seq<Byte>)
    returns (r: SaveResult)
    requires Progress(file, resource) && offset <= file.cursor
    requires Body(response.chunks) <= resource[offset..]
    requires response.complete ==> Body(response.chunks) == resource[offset..]
    modifies file, file.disk
    ensures r.Saved? ==> file.content == resource
    ensures r.NetworkError? ==> Progress(file, resource)
    ensures r.NetworkError? ==> !response.complete && file.cursor == offset + |Body(response.chunks)|
    ensures file.disk.full == old(file.disk.full)
    ensures file.disk.failed == (old(file.disk.failed) || r.IoError?)
  {
    var ok := file.Seek(offset);
    if !ok {
      return IoError;
    }
    assert file.content[..offset] == old(file.content[..file.cursor])[..offset];
    for i := 0 to |response.chunks|
      invariant file.cursor == offset + |Body(response.chunks[..i])| && Progress(file, resource)
      invariant file.disk.full == old(file.disk.full) && file.disk.failed == old(file.disk.failed)
    {
      ChunkFits(response.chunks, i, resource, offset);
      ok := SaveChunk(response.chunks[i], file, resource);
      if !ok {
        return IoError;
      }
    }
    assert response.chunks[..|response.chunks|] == response.chunks;
    return if response.complete then Saved else NetworkError;
  }

  method SaveChunk(bytes: seq<Byte>, file: File, ghost resource: seq<Byte>) returns (ok: bool)
    requires Progress(file, resource) && bytes <= resource[file.cursor..]
    modifies file, file.disk
    ensures ok ==> Progress(file, resource) && file.cursor == old(file.cursor) + |bytes|
    ensures file.disk.full == old(file.disk.full) && file.disk.failed == (old(file.disk.failed) || !ok)
  {
    WriteExtends(file.content, file.cursor, bytes, resource);
    ok := file.WriteAll(bytes);
  }

  lemma ChunkFits(chunks: seq<seq<Byte>>, i: nat, resource: seq<Byte>, offset: nat)
    requires i < |chunks| && offset <= |resource| && Body(chunks) <= resource[offset..]
    ensures |Body(chunks[..i + 1])| == |Body(chunks[..i])| + |chunks[i]|
    ensures var at := offset + |Body(chunks[..i])|; at <= |resource| && chunks[i] <= resource[at..]
  {
    BodyPrefix(chunks, i, resource[offset..]);
    var n := |Body(chunks[..i])|;
    assert resource[offset..][n..] == resource[offset + n..];
  }

  lemma BodyPrefix(chunks: seq<seq<Byte>>, i: nat, whole: seq<Byte>)
    requires i < |chunks| && Body(chunks) <= whole
    ensures Body(chunks[..i + 1]) == Body(chunks[..i]) + chunks[i]
    ensures Body(chunks[..i + 1]) <= whole
    ensures chunks[i] <= whole[|Body(chunks[..i])|..]
  {
    assert chunks[..i + 1][..i] == chunks[..i] && chunks == chunks[..i + 1] + chunks[i + 1..];
    FlatMapConcat(chunks[..i + 1], chunks[i + 1..], chunk => chunk);
    var n := |Body(chunks[..i])|;
    assert whole[..n + |chunks[i]|] == Body(chunks[..i]) + chunks[i];
    assert whole[n..][..|chunks[i]|] == whole[..n + |chunks[i]|][n..];
  }

  // ---------------------------------------------------------------- the requests

  /**
   What comes after a request: the same again after a transient failure; after a response that broke
   off, the rest, or else, if the server takes no range requests, all of it again.
   */
  ghost predicate NextStart(server: Server, asked: seq<nat>, n: nat, ranges: bool)
    requires 0 < n < |asked|
  {
    match server(asked[n - 1], n - 1)
    case TransientFailure => asked[n] == asked[n - 1]
    case Refused => false
    case Got(r) =>
      && !r.complete
      && if ranges then exists start: nat :: StartsAt(r, start) && asked[n] == start + |Body(r.chunks)| else asked[n] == 0
  }

  /** The requests from a number on follow each other like this. */
  ghost predicate Sequel(server: Server, asked: seq<nat>, from: nat, ranges: bool) {
    forall n :: from < n < |asked| ==> NextStart(server, asked, n, ranges)
  }

  /** The first response among the requests from a number on. */
  ghost predicate FirstAnswer(server: Server, asked: seq<nat>, from: nat, f: nat) {
    && from <= f < |asked| && server(asked[f], f).Got?
    && forall n :: from <= n < f ==> !server(asked[n], n).Got?
  }

  /** Asking starts at the beginning, and the first response says whether ranges may be asked for. */
  ghost predicate Protocol(server: Server, asked: seq<nat>, from: nat) {
    && (from < |asked| ==> asked[from] == 0)
    && (forall f: nat :: FirstAnswer(server, asked, from, f) ==>
          Sequel(server, asked, from, server(asked[f], f).response.acceptsByteRanges))
  }

  /** The last request got a response that broke off at a position. */
  ghost predicate BrokeOff(server: Server, asked: seq<nat>, position: nat) {
    && asked != []
    && var reply := server(asked[|asked| - 1], |asked| - 1);
       && reply.Got? && !reply.response.complete
       && exists start: nat :: StartsAt(reply.response, start) && position == start + |Body(reply.response.chunks)|
  }

  /** Requests for the same position, repeated after transient failures. */
  ghost predicate Repeats(server: Server, before: seq<nat>, asked: seq<nat>, start: nat) {
    && before <= asked && (forall n :: |before| <= n < |asked| ==> asked[n] == start)
    && forall n :: |before| <= n < |asked| - 1 ==> server(start, n).TransientFailure?
  }

  lemma StartsOver(server: Server, before: seq<nat>, asked: seq<nat>)
    requires Repeats(server, before, asked, 0)
    ensures Protocol(server, asked, |before|)
    ensures forall ranges: bool :: Sequel(server, asked, |before|, ranges)
    ensures asked != before && server(0, |asked| - 1).Got? ==> FirstAnswer(server, asked, |before|, |asked| - 1)
  {
    forall ranges: bool ensures Sequel(server, asked, |before|, ranges) {
      forall n | |before| < n < |asked| ensures NextStart(server, asked, n, ranges) {}
    }
  }

  lemma Continues(server: Server, before: seq<nat>, asked: seq<nat>, from: nat, ranges: bool, position: nat)
    requires Sequel(server, before, from, ranges) && from < |before| && BrokeOff(server, before, position)
    requires Repeats(server, before, asked, if ranges then position else 0)
    ensures Sequel(server, asked, from, ranges)
  {
    forall n | from < n < |asked| ensures NextStart(server, asked, n, ranges) {
      if n < |before| {
        assert NextStart(server, before, n, ranges);
      }
    }
  }

  lemma ProtocolBy(server: Server, asked: seq<nat>, from: nat, f: nat)
    requires FirstAnswer(server, asked, from, f) && asked[from] == 0
    requires Sequel(server, asked, from, server(asked[f], f).response.acceptsByteRanges)
    ensures Protocol(server, asked, from)
  {
    forall g: nat | FirstAnswer(server, asked, from, g) ensures g == f {}
  }

  class Downloader {
    const server: Server
    const patience: nat
    const disk: Disk
    var asked: seq<nat> // where each request started
    var target: Option<seq<Byte>>

    constructor (server: Server, patience: nat, disk: Disk, target: Option<seq<Byte>>)
      ensures this.server == server && this.patience == patience && this.disk == disk
      ensures asked == [] && this.target == target
    {
      this.server, this.patience, this.disk, this.asked, this.target := server, patience, disk, [], target;
    }

    /** The reply to the last request. */
    function LastReply(): Reply
      reads this
      requires asked != []
    {
      server(asked[|asked| - 1], |asked| - 1)
    }

    /** A failure is the environment's doing: the last request failed, its response is bad, or the disk. */
    ghost predicate Explained(r: Outcome)
      reads this, disk
    {
      match r
      case Done => true
      case RequestFailed => |asked| >= patience || (asked != [] && !LastReply().Got?)
      case InvalidResponse =>
        && asked != [] && LastReply().Got?
        && var response := LastReply().response;
           if response.status == 206 then response.contentRangeStart.None? else !(200 <= response.status <= 299)
      case InsufficientSpace => disk.full
      case FileError => disk.failed
    }

    /**
     Asks for the resource from a position on, again and again as long as the failure is worth a retry
     and neither the backoff gives up nor patience runs out.
     */
    method RequestRangeFrom(start: nat) returns (r: Reply)
      modifies this`asked
      ensures Repeats(server, old(asked), asked, start)
      ensures r.Got? ==> |old(asked)| < |asked| <= patience && r == LastReply()
      ensures !r.Got? ==> |asked| >= patience || (old(asked) < asked && !LastReply().Got?)
    {
      var gaveUp := false;
      while |asked| < patience && !gaveUp
        invariant old(asked) <= asked
        invariant forall n :: |old(asked)| <= n < |asked| ==> asked[n] == start && server(start, n).TransientFailure?
        invariant gaveUp ==> old(asked) < asked
        decreases patience - |asked|
      {
        r := server(start, |asked|);
        asked := asked + [start];
        if !r.TransientFailure? {
          return;
        }
        gaveUp := *;
      }
      return Refused;
    }

    method Persist(content: seq<Byte>) returns (ok: bool)
      modifies this`target, disk
      ensures target == if ok then Some(content) else old(target)
      ensures disk.full == old(disk.full) && disk.failed == (old(disk.failed) || !ok)
    {
      ok := disk.Try();
      if ok {
        target := Some(content);
      }
    }

    method TryPreAllocateSpace(file: File, fileLen: nat) returns (r: Outcome)
      requires file.disk == disk
      modifies file, disk
      ensures r.Done? || r.FileError? || r.InsufficientSpace?
      ensures Explained(r)
      ensures file.cursor == old(file.cursor)
      ensures file.content == old(file.content) ||
              (|old(file.content)| <= fileLen
               && file.content == old(file.content) + Zeros(fileLen - |old(file.content)|))
    {
      if fileLen == 0 {
        return Done;
      }
      var ok := disk.Try();
      if !ok {
        return FileError;
      }
      var enoughSpace := disk.HasSpaceFor(fileLen);
      if !enoughSpace {
        return InsufficientSpace;
      }
      file.Allocate(fileLen);
      return Done;
    }

    /** Saves the first response, and after a network error asks for what it needs. */
    method SaveAll(response: Response, file: File, ghost resource: seq<Byte>, ghost from: nat) returns (r: Outcome)
      requires HonestServer(resource, server) && Progress(file, resource) && file.disk == disk
      requires from < |asked| && asked[|asked| - 1] == 0 && LastReply() == Got(response)
      requires Sequel(server, asked, from, response.acceptsByteRanges)
      modifies this`asked, file, disk
      ensures r.Done? ==> file.content == resource
      ensures Explained(r)
      ensures old(asked) <= asked && Sequel(server, asked, from, response.acceptsByteRanges)
    {
      assert Honest(resource, 0, response) && StartsAt(response, 0);
      var saved := SaveChunksToFileAt(response, file, 0, resource);
      match saved
      case Saved => return Done;
      case NetworkError =>
        if response.acceptsByteRanges {
          r := DownloadRemaining(file, resource, from);
        } else {
          r := Retry(file, resource, from);
        }
      case IoError => return FileError;
    }

    /**
     If it succeeds, the destination holds the resource; if it fails, the destination is as it
     was and the environment is to blame.
     */
    method Download(ghost resource: seq<Byte>) returns (r: Outcome)
      requires HonestServer(resource, server) && !disk.failed && !disk.full
      modifies this, disk
      ensures target == if r.Done? then Some(resource) else old(target)
      ensures Explained(r)
      ensures old(asked) <= asked && Protocol(server, asked, |old(asked)|)
    {
      var ok := disk.Try();
      if !ok {
        return FileError;
      }
      var file := new File(disk);
      var reply := RequestRangeFrom(0);
      ghost var from, first := |old(asked)|, |asked| - 1;
      StartsOver(server, old(asked), asked);
      if !reply.Got? {
        return RequestFailed;
      }
      var response := reply.response;
      var fileLen := if response.contentLength.Some? then response.contentLength.value else 0;
      if fileLen > 0 {
        r := TryPreAllocateSpace(file, fileLen);
        if !r.Done? {
          return;
        }
      }
      r := SaveAll(response, file, resource, from);
      ProtocolBy(server, asked, from, first);
      if !r.Done? {
        return;
      }
      var persisted := Persist(file.content);
      return if persisted then Done else FileError;
    }

    method DownloadRemaining(file: File, ghost resource: seq<Byte>, ghost from: nat) returns (r: Outcome)
      requires HonestServer(resource, server) && Progress(file, resource) && file.disk == disk
      requires from < |asked| && Sequel(server, asked, from, true) && BrokeOff(server, asked, file.cursor)
      modifies this`asked, file, disk
      ensures r.Done? ==> file.content == resource
      ensures Explained(r)
      ensures old(asked) <= asked && Sequel(server, asked, from, true)
    {
      while true
        invariant Progress(file, resource)
        invariant old(asked) <= asked && Sequel(server, asked, from, true) && BrokeOff(server, asked, file.cursor)
        decreases patience - |asked|
      {
        var ok := disk.Try();
        if !ok {
          return FileError;
        }
        ghost var before := asked;
        var reply := RequestRangeFrom(file.cursor);
        Continues(server, before, asked, from, true, file.cursor);
        if !reply.Got? {
          return RequestFailed;
        }
        var offset := ResponseRangeStart(reply.response);
        RangeStartIs(reply.response);
        if offset.None? {
          return InvalidResponse;
        }
        assert StartsAt(reply.response, offset.value);
        var saved := SaveChunksToFileAt(reply.response, file, offset.value, resource);
        match saved
        case Saved => return Done;
        case NetworkError =>
        case IoError => return FileError;
      }
    }

    method Retry(file: File, ghost resource: seq<Byte>, ghost from: nat) returns (r: Outcome)
      requires HonestServer(resource, server) && Progress(file, resource) && file.disk == disk
      requires from < |asked| && Sequel(server, asked, from, false) && BrokeOff(server, asked, file.cursor)
      modifies this`asked, file, disk
      ensures r.Done? ==> file.content == resource
      ensures Explained(r)
      ensures old(asked) <= asked && Sequel(server, asked, from, false)
    {
      while true
        invariant Progress(file, resource)
        invariant old(asked) <= asked && Sequel(server, asked, from, false) && BrokeOff(server, asked, file.cursor)
        decreases patience - |asked|
      {
        ghost var before := asked;
        var reply := RequestRangeFrom(0);
        Continues(server, before, asked, from, false, file.cursor);
        if !reply.Got? {
          return RequestFailed;
        }
        var saved := SaveChunksToFileAt(reply.response, file, 0, resource);
        match saved
        case Saved => return Done;
        case NetworkError =>
        case IoError => return FileError;
      }
    }
  }
}
