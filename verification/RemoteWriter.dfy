/**
 The S3 writer as one caller sees it (internal/writer/s3.go:22-35, 142-176). The uploader is
 taken to read its body to the end or to give up before it has.
 */
module RemoteWriter {
  import opened Common
  import opened Pipeline
  import opened LocalWriter

  /** The counting reader around the tee around the reader that yields `chunks`. */
  class CountingReader {
    const chunks: seq<Bytes>
    var next: nat
    var hashed: Bytes
    var count: nat

    predicate Valid()
      reads this
    {
      next <= |chunks| && hashed == Flatten(chunks[..next]) && count == |hashed|
    }

    constructor (chunks: seq<Bytes>)
      ensures Valid() && this.chunks == chunks && next == 0
    {
      this.chunks := chunks;
      next, hashed, count := 0, [], 0;
    }

    /** None at the end. */
    method Read() returns (chunk: Option<Bytes>)
      requires Valid()
      modifies this
      ensures Valid()
      ensures chunk == if old(next) < |chunks| then Some(chunks[old(next)]) else None
      ensures next == if chunk.Some? then old(next) + 1 else old(next)
    {
      if next == |chunks| {
        return None;
      }
      assert chunks[..next + 1][..next] == chunks[..next];
      chunk := Some(chunks[next]);
      hashed := hashed + chunk.value;
      count := count + |chunk.value|;
      next := next + 1;
    }
  }

  class S3Writer {
    const hash: Bytes -> string
    var objects: map<string, Bytes>

    constructor (hash: Bytes -> string)
      ensures this.hash == hash && objects == map[]
    {
      this.hash := hash;
      objects := map[];
    }

    /**
     `givesUpAt` is the number of chunks after which the upload fails, if it does. Unlike the
     local writer this one never leaves a torn object and never touches the one there was.
     */
    method Write(objectName: string, chunks: seq<Bytes>, end: ReaderEnd, givesUpAt: Option<nat>) returns (w: Written)
      modifies this
      ensures w.ok <==> end.Eof? && (givesUpAt.Some? ==> givesUpAt.value > |chunks|)
      ensures objects == if w.ok then old(objects)[objectName := Flatten(chunks)] else old(objects)
      ensures w == if w.ok then Written(true, |Flatten(chunks)|, hash(Flatten(chunks))) else Written(false, 0, "")
    {
      var reader := new CountingReader(chunks);
      var body: Bytes := [];
      var more := true;
      while more
        invariant fresh(reader) && reader.Valid() && reader.chunks == chunks
        invariant body == reader.hashed && objects == old(objects)
        invariant !more ==> reader.next == |chunks|
        invariant givesUpAt.Some? ==> givesUpAt.value >= reader.next && (!more ==> givesUpAt.value > |chunks|)
        decreases |chunks| - reader.next, more
      {
        if givesUpAt == Some(reader.next) {
          return Written(false, 0, "");
        }
        ghost var seen := reader.next;
        var chunk := reader.Read();
        if chunk.Some? {
          assert chunks[..seen + 1][..seen] == chunks[..seen];
          body := body + chunk.value;
        } else {
          more := false;
        }
      }
      if end.ReadError? {
        return Written(false, 0, "");
      }
      assert chunks[..|chunks|] == chunks;
      objects := objects[objectName := body];
      return Written(true, reader.count, hash(reader.hashed));
    }
  }
}
