/**
 * Uploads, one piece per request. The state of an upload is the file on disk and
 * nothing else: a piece continues it only if it begins where the file ends, and
 * a piece at offset zero starts over.
 */
module Upload {
  import opened Basics

  type Byte = x: int | 0 <= x < 256

  /** What becomes of one frame of a request body: it is written, it never comes, or the disk takes part of it. */
  datatype Frame = Arrives(data: seq<Byte>) | Fails | WriteFails(data: seq<Byte>, written: nat)

  datatype Request = Request(offset: nat, total: nat, body: seq<Frame>)

  datatype Reply = Partial(received: nat) | Complete(content: seq<Byte>) | Refused

  type File = Option<seq<Byte>>

  /** The bytes of a body, if all of it arrived and was written. */
  function Payload(body: seq<Frame>): Option<seq<Byte>> {
    if body == [] then Some([])
    else
      match (Payload(body[..|body| - 1]), body[|body| - 1])
      case (Some(before), Arrives(data)) => Some(before + data)
      case _ => None
  }

  predicate Fits(r: Request, max: nat) { 0 < r.total <= max && r.offset <= r.total }

  /** A piece is accepted if it continues the file, arrives whole and stays within the declared size. */
  predicate Accepted(file: File, r: Request, max: nat) {
    && Fits(r, max)
    && (r.offset == 0 || (file.Some? && |file.value| == r.offset))
    && Payload(r.body).Some? && r.offset + |Payload(r.body).value| <= r.total
  }

  function Appended(file: File, r: Request): seq<Byte>
    requires Payload(r.body).Some?
  {
    (if r.offset == 0 || file.None? then [] else file.value) + Payload(r.body).value
  }

  /** The file and the answer; the last piece hands the whole file on and leaves none behind. */
  function Answered(file: File, r: Request, max: nat): (File, Reply) {
    if Accepted(file, r, max) then
      var content := Appended(file, r);
      if |content| < r.total then (Some(content), Partial(|content|)) else (None, Complete(content))
    else if Fits(r, max) && r.offset == 0 then (Some([]), Refused)
    else (file, Refused)
  }

  class Hub {
    var file: File
    const max: nat

    constructor (max: nat)
      ensures file == None && this.max == max
    {
      file := None;
      this.max := max;
    }

    /** Writes frames onto the end of the file until one fails or the declared size is passed. */
    method Append(r: Request) returns (received: Option<nat>)
      requires file.Some? && |file.value| == r.offset <= r.total
      modifies this`file
      ensures received.Some? <==> Payload(r.body).Some? && r.offset + |Payload(r.body).value| <= r.total
      ensures received.Some? ==> received.value == |Payload(r.body).value|
      ensures received.Some? ==> file == Some(old(file.value) + Payload(r.body).value)
      ensures file.Some? && old(file.value) <= file.value
    {
      hide Payload;
      NothingYet();
      var so_far := 0;
      for i := 0 to |r.body|
        invariant Payload(r.body[..i]).Some? && so_far == |Payload(r.body[..i]).value| && file.Some?
        invariant file.value == old(file.value) + Payload(r.body[..i]).value
        invariant r.offset + so_far <= r.total
      {
        OneMoreFrame(r.body, i);
        PayloadGrows(r.body, i + 1);
        match r.body[i] {
          case Fails => return None;
          case WriteFails(data, written) =>
            file := Some(file.value + data[..Min(written, |data|)]);
            return None;
          case Arrives(data) =>
            so_far := so_far + |data|;
            if r.offset + so_far > r.total {
              return None;
            }
            file := Some(file.value + data);
        }
      }
      assert r.body[..|r.body|] == r.body;
      return Some(so_far);
    }

    method Receive(r: Request) returns (received: Option<nat>)
      modifies this`file
      ensures received.Some? <==> Accepted(old(file), r, max)
      ensures received.Some? ==> file == Some(Appended(old(file), r)) && received.value == |file.value|
      ensures received.None? ==> file == Answered(old(file), r, max).0
    {
      if r.total == 0 || r.total > max || r.offset > r.total {
        return None;
      }
      if r.offset == 0 {
        file := Some([]);
      } else if file.None? {
        return None;
      }
      if |file.value| != r.offset {
        return None;
      }
      ghost var before := file.value;
      var appended := Append(r);
      match appended {
        case Some(n) => return Some(r.offset + n);
        case None =>
          assert file.value[..r.offset] == before;
          file := Some(file.value[..r.offset]);
          return None;
      }
    }

    method Post(r: Request) returns (reply: Reply)
      modifies this`file
      ensures (file, reply) == Answered(old(file), r, max)
      ensures var whole := Payload(r.body);
              reply == Refused <==>
                || r.total == 0 || r.total > max || r.offset > r.total
                || (r.offset > 0 && (old(file).None? || |old(file).value| != r.offset))
                || whole.None? || r.offset + |whole.value| > r.total
      ensures reply == Refused ==>
        file == if r.offset == 0 && 0 < r.total <= max then Some([]) else old(file)
      ensures reply != Refused ==>
        var content := (if r.offset == 0 then [] else old(file).value) + Payload(r.body).value;
        if |content| == r.total then reply == Complete(content) && file == None
        else reply == Partial(|content|) && file == Some(content)
    {
      var received := Receive(r);
      if received.None? {
        return Refused;
      }
      if received.value < r.total {
        return Partial(received.value);
      }
      reply := Complete(file.value);
      file := None;
    }
  }

  /** A body is the bytes of its frames in order, if every frame arrives and is written. */
  lemma {:induction false} PayloadIsItsFramesInOrder(a: seq<Frame>, b: seq<Frame>)
    ensures Payload(a + b) ==
      if Payload(a).Some? && Payload(b).Some? then Some(Payload(a).value + Payload(b).value) else None
    decreases |b|
  {
    if b == [] {
      assert a + b == a;
      if Payload(a).Some? { assert Payload(a).value + [] == Payload(a).value; }
    } else {
      var n := |b| - 1;
      assert (a + b)[..|a + b| - 1] == a + b[..n] && (a + b)[|a + b| - 1] == b[n];
      PayloadIsItsFramesInOrder(a, b[..n]);
      if Payload(a).Some? && Payload(b).Some? {
        assert (Payload(a).value + Payload(b[..n]).value) + b[n].data == Payload(a).value + Payload(b).value;
      }
    }
  }

  lemma PayloadOfOneFrame(f: Frame)
    ensures Payload([f]) == if f.Arrives? then Some(f.data) else None
  {
    assert [f][..0] == [];
    if f.Arrives? { assert [] + f.data == f.data; }
  }

  lemma NothingYet()
    ensures Payload([]) == Some([])
  {
  }

  lemma OneMoreFrame(body: seq<Frame>, i: nat)
    requires i < |body| && Payload(body[..i]).Some?
    ensures Payload(body[..i + 1]) ==
      match body[i] case Arrives(data) => Some(Payload(body[..i]).value + data) case _ => None
  {
    assert body[..i + 1][..i] == body[..i];
  }

  lemma {:induction false} PayloadGrows(body: seq<Frame>, i: nat)
    requires i <= |body|
    ensures Payload(body).Some? ==> Payload(body[..i]).Some? && |Payload(body[..i]).value| <= |Payload(body).value|
  {
    if i == |body| {
      assert body[..i] == body;
    } else {
      PayloadGrows(body[..|body| - 1], i);
      assert body[..|body| - 1][..i] == body[..i];
    }
  }

  // ---- the client ----

  function Slice(file: seq<Byte>, offset: nat, size: nat): seq<Byte>
    requires offset <= |file|
  {
    file[offset..Min(offset + size, |file|)]
  }

  /** Every piece of the file reaches the hub whole. */
  predicate AllArrive(file: seq<Byte>, size: nat, sent: seq<seq<Frame>>) {
    forall i: nat :: i < |sent| && i * size < |file| ==> Payload(sent[i]).Some?
  }

  /**
   * The panel's loop: `sent[i]` is what reaches the hub of piece `i`, which is
   * that piece in any framing or less than all of it. The first failure ends it.
   */
  method Send(hub: Hub, file: seq<Byte>, size: nat, sent: seq<seq<Frame>>) returns (last: Option<Reply>)
    requires 0 < size && |sent| * size >= |file|
    requires forall i: nat :: i < |sent| && i * size < |file| ==>
      Payload(sent[i]) == None || Payload(sent[i]) == Some(Slice(file, i * size, size))
    modifies hub`file
    ensures last == (if file == [] then None
                     else if |file| <= hub.max && AllArrive(file, size, sent) then Some(Complete(file))
                     else Some(Refused))
    ensures last == Some(Complete(file)) ==> hub.file == None
  {
    last := None;
    if file == [] {
      return;
    }
    var offset := 0;
    var i: nat := 0;
    while offset < |file|
      invariant offset == Min(i * size, |file|)
      invariant i == 0 || last == (if offset < |file| then Some(Partial(offset)) else Some(Complete(file)))
      invariant 0 < i && offset < |file| ==> hub.file == Some(file[..offset])
      invariant 0 < i && offset == |file| ==> hub.file == None
      invariant 0 < i ==> |file| <= hub.max
      invariant forall k: nat :: k < i ==> k < |sent| && Payload(sent[k]).Some?
      decreases |file| - offset
    {
      PieceIsThere(i, size, |sent|, |file|);
      assert offset == i * size;
      var reply := hub.Post(Request(offset, |file|, sent[i]));
      last := Some(reply);
      if reply == Refused {
        return;
      }
      assert file[..offset] + Slice(file, offset, size) == file[..Min(offset + size, |file|)];
      assert file[..|file|] == file && file[..0] == [];
      offset := Min(offset + size, |file|);
      i := i + 1;
      assert (i - 1) * size + size == i * size;
    }
  }

  lemma PieceIsThere(i: nat, size: nat, pieces: nat, length: nat)
    requires 0 < size && pieces * size >= length
    ensures i * size < length ==> i < pieces
  {
    if pieces <= i {
      MulMonotone(size, pieces, i);
      assert size * pieces == pieces * size && size * i == i * size;
    }
  }

  // ---- sequences of requests ----

  function FileAfter(file: File, rs: seq<Request>, max: nat): File {
    if rs == [] then file else Answered(FileAfter(file, rs[..|rs| - 1], max), rs[|rs| - 1], max).0
  }

  /**
   * What the requests since the last one that started over have had accepted, or
   * nothing once a file was completed. `file` is what was there before any of them.
   */
  function AcceptedSince(file: File, rs: seq<Request>, max: nat): File {
    if rs == [] then file
    else
      var front, r := rs[..|rs| - 1], rs[|rs| - 1];
      var so_far := AcceptedSince(file, front, max);
      if !Fits(r, max) then so_far
      else if !Accepted(FileAfter(file, front, max), r, max) then (if r.offset == 0 then Some([]) else so_far)
      else if r.offset == 0 then Finished(r, Payload(r.body).value)
      else if so_far.None? then None
      else Finished(r, so_far.value + Payload(r.body).value)
  }

  function Finished(r: Request, content: seq<Byte>): File {
    if |content| < r.total then Some(content) else None
  }

  /** The file is always the pieces accepted since the last start, in order. */
  lemma {:induction false} FileIsWhatWasAccepted(file: File, rs: seq<Request>, max: nat)
    ensures FileAfter(file, rs, max) == AcceptedSince(file, rs, max)
  {
    if rs != [] {
      FileIsWhatWasAccepted(file, rs[..|rs| - 1], max);
      var r := rs[|rs| - 1];
      if Payload(r.body).Some? { assert [] + Payload(r.body).value == Payload(r.body).value; }
    }
  }

  /** A refused piece leaves the file as it was, unless it was to start the file over. */
  lemma RefusalsLeaveTheFile(file: File, r: Request, max: nat)
    requires r.offset > 0 && Answered(file, r, max).1 == Refused
    ensures Answered(file, r, max).0 == file
  {
  }

  /**
   * Requests as a client makes them that tries a piece again at the same offset
   * until it gets through.
   */
  predicate Persistent(file: seq<Byte>, size: nat, offset: nat, rs: seq<Request>)
    requires offset <= |file|
    decreases rs
  {
    if rs == [] then offset == |file|
    else
      var r, piece := rs[0], Slice(file, offset, size);
      && offset < |file| && r.offset == offset && r.total == |file|
      && (Payload(r.body) == None || Payload(r.body) == Some(piece))
      && Persistent(file, size, if Payload(r.body) == None then offset else offset + |piece|, rs[1..])
  }

  function Replies(file: File, rs: seq<Request>, max: nat): seq<Reply>
    decreases rs
  {
    if rs == [] then [] else [Answered(file, rs[0], max).1] + Replies(Answered(file, rs[0], max).0, rs[1..], max)
  }

  /**
   * Any file within the ceiling, in pieces of any size, each tried as often as it
   * takes: the last reply, and no other, reports completion, with the original.
   */
  lemma {:induction false} UploadsRoundTrip(before: File, file: seq<Byte>, size: nat, offset: nat, rs: seq<Request>, max: nat)
    requires 0 < |file| <= max && 0 < size && offset < |file| && Persistent(file, size, offset, rs)
    requires offset > 0 ==> before == Some(file[..offset])
    ensures var replies := Replies(before, rs, max);
            && replies != [] && replies[|replies| - 1] == Complete(file)
            && forall i :: 0 <= i < |replies| - 1 ==> !replies[i].Complete?
    decreases rs
  {
    var r, piece := rs[0], Slice(file, offset, size);
    var (after, reply) := Answered(before, r, max);
    var next := if Payload(r.body) == None then offset else offset + |piece|;
    assert file[..offset] + piece == file[..offset + |piece|] && file[..0] == [] && file[..|file|] == file;
    if next < |file| {
      hide Answered, Payload;
      UploadsRoundTrip(after, file, size, next, rs[1..], max);
      var rest := Replies(after, rs[1..], max);
      assert Replies(before, rs, max) == [reply] + rest;
    } else {
      assert rs[1..] == [];
      assert Replies(before, rs, max) == [reply];
    }
  }

  /**
   * When the hub took a piece and only its answer was lost, sending it again is
   * accepted exactly at offset zero, where it starts over, or if it is empty and
   * did not complete the file. A piece past offset zero that brought anything is
   * refused, and the upload has to start over; a file of one piece completes twice.
   */
  lemma AcceptedPieceIsRepeatableOnlyAtTheStart(file: File, r: Request, max: nat)
    requires Accepted(file, r, max)
    ensures var once := Answered(file, r, max).0;
            && (Accepted(once, r, max) <==> r.offset == 0 || (Payload(r.body).value == [] && r.offset < r.total))
            && (!Accepted(once, r, max) ==> Answered(once, r, max) == (once, Refused))
            && (Accepted(once, r, max) ==> Answered(once, r, max) == Answered(file, r, max))
  {
    if r.offset > 0 && Payload(r.body).value == [] {
      assert file.value + [] == file.value;
    }
  }
}
