/**
 * The three ways the upload example sends a PDF: whole as Base64, in chunks
 * of 1 MiB each carrying its own Base64 (the first also carrying the
 * metadata), or through a byte-by-byte binary string and `btoa`. None of them
 * starts without a file and a title. The server's answers are parameters.
 */
module UploadPdf {
  import opened Wrappers
  import opened JsString
  import opened Bytes
  import opened StoreTypes
  import Base64

  const ChunkSize: nat := 1024 * 1024

  const UploadFailedMessage := "Error al subir el archivo"
  const ChunkFailedPrefix := "Error al subir chunk "
  const CompleteFailedMessage := "Error al completar el upload"

  /** `Math.ceil(size / CHUNK_SIZE)`. */
  function TotalChunks(size: nat): (n: nat)
    ensures n * ChunkSize >= size
    ensures n > 0 ==> (n - 1) * ChunkSize < size
    ensures n == 0 <==> size == 0
  {
    (size + ChunkSize - 1) / ChunkSize
  }

  /** The byte range `[start, end)` of one chunk. */
  datatype Range = Range(start: nat, end: nat)

  /** Chunk `i` of a file of `size` bytes: from `i·C` up to `i·C + C` or the end of the file. */
  function ChunkRange(i: nat, size: nat): (r: Range)
    ensures r.start == i * ChunkSize
    ensures i < TotalChunks(size) ==> r.start < r.end <= size && r.end - r.start <= ChunkSize
  {
    var start := i * ChunkSize;
    Range(start, if start + ChunkSize < size then start + ChunkSize else size)
  }

  /** The chunks follow one another: each ends where the next one starts, the first starts at 0 and the last ends at the end of the file. */
  lemma ChunksContiguous(size: nat, i: nat)
    requires i + 1 < TotalChunks(size)
    ensures ChunkRange(i, size).end == ChunkRange(i + 1, size).start
    ensures ChunkRange(0, size).start == 0
    ensures ChunkRange(TotalChunks(size) - 1, size).end == size
  {
    var n := TotalChunks(size);
    assert (i + 1) * ChunkSize == i * ChunkSize + ChunkSize;
    assert (i + 1) * ChunkSize <= (n - 1) * ChunkSize;
    assert (n - 1) * ChunkSize + ChunkSize == n * ChunkSize;
  }

  /** Distinct chunks never share a byte. */
  lemma ChunksDisjoint(size: nat, i: nat, j: nat)
    requires i < j < TotalChunks(size)
    ensures ChunkRange(i, size).end <= ChunkRange(j, size).start
  {
    assert (i + 1) * ChunkSize == i * ChunkSize + ChunkSize;
    assert (i + 1) * ChunkSize <= j * ChunkSize;
  }

  /** Every byte of the file lies in exactly one chunk, number `p / C`. */
  lemma ChunksCover(size: nat, p: nat)
    requires p < size
    ensures p / ChunkSize < TotalChunks(size)
    ensures var r := ChunkRange(p / ChunkSize, size); r.start <= p < r.end
    ensures forall i :: 0 <= i < TotalChunks(size) && ChunkRange(i, size).start <= p < ChunkRange(i, size).end ==> i == p / ChunkSize
  {
    var q := p / ChunkSize;
    assert q * ChunkSize <= p < q * ChunkSize + ChunkSize;
    forall i | 0 <= i < TotalChunks(size) && ChunkRange(i, size).start <= p < ChunkRange(i, size).end
      ensures i == q
    {
      assert i * ChunkSize <= p < i * ChunkSize + ChunkSize;
    }
  }

  /** The bytes of chunk `i`: `file.slice(start, end)`. */
  function ChunkBytes(content: seq<Byte>, i: nat): (b: seq<Byte>)
    requires i < TotalChunks(|content|)
    ensures 0 < |b| <= ChunkSize
  {
    var r := ChunkRange(i, |content|);
    content[r.start..r.end]
  }

  /** The bytes of many pieces laid end to end. */
  function Concat(pieces: seq<seq<Byte>>): seq<Byte> {
    if pieces == [] then [] else Concat(pieces[..|pieces| - 1]) + pieces[|pieces| - 1]
  }

  /** The first `k` chunks laid end to end are the file up to the end of chunk `k - 1`. */
  lemma {:induction false} ChunksPrefix(content: seq<Byte>, k: nat)
    requires k <= TotalChunks(|content|)
    ensures var upto := if k * ChunkSize < |content| then k * ChunkSize else |content|;
            Concat(seq(k, i requires 0 <= i < k => ChunkBytes(content, i))) == content[..upto]
  {
    var pieces := seq(k, i requires 0 <= i < k => ChunkBytes(content, i));
    if k > 0 {
      ChunksPrefix(content, k - 1);
      assert pieces[..k - 1] == seq(k - 1, i requires 0 <= i < k - 1 => ChunkBytes(content, i));
      var r := ChunkRange(k - 1, |content|);
      assert (k - 1) * ChunkSize + ChunkSize == k * ChunkSize;
      assert content[..r.start] + content[r.start..r.end] == content[..r.end];
    }
  }

  /** All the chunks laid end to end are the whole file. */
  lemma ChunksReassemble(content: seq<Byte>)
    ensures var n := TotalChunks(|content|);
            Concat(seq(n, i requires 0 <= i < n => ChunkBytes(content, i))) == content
  {
    ChunksPrefix(content, TotalChunks(|content|));
    assert content[..|content|] == content;
  }

  /** The metadata the first chunk carries. */
  datatype Metadata = Metadata(title: string, description: string, fileName: string, fileSize: nat)

  /** The body of one chunk request. */
  datatype ChunkMessage = ChunkMessage(chunkIndex: nat, totalChunks: nat, uploadId: string, chunkData: string, metadata: Option<Metadata>)

  /** The request for chunk `i`: its Base64, and the metadata only for chunk 0. */
  function MessageAt(file: FileInfo, title: string, description: string, uploadId: string, i: nat): (m: ChunkMessage)
    requires i < TotalChunks(file.Size())
    ensures m.chunkIndex == i && m.totalChunks == TotalChunks(file.Size())
    ensures m.metadata.Some? <==> i == 0
  {
    ChunkMessage(i, TotalChunks(file.Size()), uploadId, Base64.Encode(ChunkBytes(file.content, i)),
                 if i == 0 then Some(Metadata(title, description, file.name, file.Size())) else None)
  }

  /** Decoding the chunks' Base64 in order gives back the file. */
  lemma MessagesReassemble(file: FileInfo, title: string, description: string, uploadId: string)
    ensures var n := TotalChunks(file.Size());
            Concat(seq(n, i requires 0 <= i < n => Base64.Decode(MessageAt(file, title, description, uploadId, i).chunkData))) == file.content
  {
    var n := TotalChunks(file.Size());
    var decoded := seq(n, i requires 0 <= i < n => Base64.Decode(MessageAt(file, title, description, uploadId, i).chunkData));
    var pieces := seq(n, i requires 0 <= i < n => ChunkBytes(file.content, i));
    forall i | 0 <= i < n
      ensures decoded[i] == pieces[i]
    {
      Base64.DecodeEncode(ChunkBytes(file.content, i));
    }
    assert decoded == pieces;
    ChunksReassemble(file.content);
  }

  /** `btoa`: the Base64 of a string's character codes, or None (an `InvalidCharacterError`) when a code is above 255. */
  function Btoa(s: string): (r: Option<string>)
    ensures r.Some? <==> forall j :: 0 <= j < |s| ==> s[j] as int < 256
  {
    if forall j :: 0 <= j < |s| ==> s[j] as int < 256 then Some(Base64.Encode(BinaryBytes(s))) else None
  }

  /** The body of a whole-file upload. */
  datatype UploadBody = UploadBody(
    title: string,
    description: string,
    fileName: string,
    fileSize: nat,
    fileBase64: string,
    compressed: Option<bool>,
    tags: seq<string>)

  datatype UploadStatus = Idle | Uploading | Succeeded | Errored

  class UploadPdfExample {
    var file: Option<FileInfo>
    var title: string
    var description: string
    var status: UploadStatus
    var errorMessage: string

    constructor()
      ensures file.None? && title == "" && description == "" && status == UploadStatus.Idle && errorMessage == ""
    {
      file := None;
      title := "";
      description := "";
      status := UploadStatus.Idle;
      errorMessage := "";
    }

    /** Every upload method starts only with a file and a title. */
    predicate Ready()
      reads this
    {
      file.Some? && title != ""
    }

    /** `arrayBufferToBase64`: one character per byte, with the byte as its code, then `btoa`. */
    static method ArrayBufferToBase64(buffer: seq<Byte>) returns (r: string)
      ensures r == Base64.Encode(buffer)
      ensures Base64.Decode(r) == buffer
    {
      var binary := "";
      for i := 0 to |buffer|
        invariant binary == BinaryString(buffer[..i])
      {
        assert buffer[..i + 1] == buffer[..i] + [buffer[i]];
        binary := binary + [buffer[i] as char];
      }
      assert buffer[..|buffer|] == buffer;
      BinaryRoundTrip(buffer);
      var encoded := Btoa(binary);
      r := encoded.value;
      Base64.DecodeEncode(buffer);
    }

    /** `handleUploadSimple`: the whole file as Base64 with two fixed tags; `ok` is the server's answer. */
    method UploadSimple(ok: bool) returns (body: Option<UploadBody>)
      modifies this
      ensures file == old(file) && title == old(title) && description == old(description)
      ensures !old(Ready()) ==> body.None? && status == old(status) && errorMessage == old(errorMessage)
      ensures old(Ready()) ==> body == Some(UploadBody(title, description, file.value.name, file.value.Size(),
                                                        Base64.Encode(file.value.content), None, ["ejemplo", "importante"]))
      ensures old(Ready()) && ok ==> status == UploadStatus.Succeeded && errorMessage == old(errorMessage)
      ensures old(Ready()) && !ok ==> status == UploadStatus.Errored && errorMessage == UploadFailedMessage
    {
      if file.None? || title == "" {
        return None;
      }
      status := UploadStatus.Uploading;
      var f := file.value;
      body := Some(UploadBody(title, description, f.name, f.Size(), Base64.Encode(f.content), None, ["ejemplo", "importante"]));
      if ok {
        status := UploadStatus.Succeeded;
      } else {
        status := UploadStatus.Errored;
        errorMessage := UploadFailedMessage;
      }
    }

    /** `handleUploadCompressed`: as the simple upload, but through `arrayBufferToBase64`, marked not compressed, with one tag. */
    method UploadCompressed(ok: bool) returns (body: Option<UploadBody>)
      modifies this
      ensures file == old(file) && title == old(title) && description == old(description)
      ensures !old(Ready()) ==> body.None? && status == old(status) && errorMessage == old(errorMessage)
      ensures old(Ready()) ==> body == Some(UploadBody(title, description, file.value.name, file.value.Size(),
                                                        Base64.Encode(file.value.content), Some(false), ["ejemplo"]))
      ensures old(Ready()) && ok ==> status == UploadStatus.Succeeded && errorMessage == old(errorMessage)
      ensures old(Ready()) && !ok ==> status == UploadStatus.Errored && errorMessage == UploadFailedMessage
    {
      if file.None? || title == "" {
        return None;
      }
      status := UploadStatus.Uploading;
      var f := file.value;
      var base64 := ArrayBufferToBase64(f.content);
      body := Some(UploadBody(title, description, f.name, f.Size(), base64, Some(false), ["ejemplo"]));
      if ok {
        status := UploadStatus.Succeeded;
      } else {
        status := UploadStatus.Errored;
        errorMessage := UploadFailedMessage;
      }
    }

    /**
     * The loop of `handleUploadChunked`: the chunk requests in order until
     * the first one the server refuses (`refused`, a chunk index). `failed`
     * is the number of the refused chunk, counted from 1.
     */
    static method SendChunks(f: FileInfo, title: string, description: string, uploadId: string, refused: Option<nat>)
      returns (sent: seq<ChunkMessage>, failed: Option<nat>)
      ensures var n := TotalChunks(f.Size());
              failed == (if refused.Some? && refused.value < n then Some(refused.value + 1) else None)
      ensures |sent| == if failed.Some? then failed.value else TotalChunks(f.Size())
      ensures forall i :: 0 <= i < |sent| ==> sent[i] == MessageAt(f, title, description, uploadId, i)
    {
      sent := [];
      var totalChunks := TotalChunks(f.Size());
      for i := 0 to totalChunks
        invariant |sent| == i
        invariant forall j :: 0 <= j < i ==> sent[j] == MessageAt(f, title, description, uploadId, j)
        invariant refused.Some? ==> refused.value >= i
      {
        var range := ChunkRange(i, f.Size());
        var chunk := f.content[range.start..range.end];
        var chunkData := ChunkMessage(i, totalChunks, uploadId, Base64.Encode(chunk), None);
        if i == 0 {
          chunkData := chunkData.(metadata := Some(Metadata(title, description, f.name, f.Size())));
        }
        assert chunkData == MessageAt(f, title, description, uploadId, i);
        sent := sent + [chunkData];
        if refused == Some(i) {
          return sent, Some(i + 1);
        }
      }
      failed := None;
    }

    /**
     * `handleUploadChunked`: the chunks are sent, and unless one is refused
     * the upload is completed, which the server accepts when `completeOk`.
     */
    method UploadChunked(uploadId: string, refused: Option<nat>, completeOk: bool) returns (sent: seq<ChunkMessage>)
      modifies this
      ensures file == old(file) && title == old(title) && description == old(description)
      ensures !old(Ready()) ==> sent == [] && status == old(status) && errorMessage == old(errorMessage)
      ensures old(Ready()) ==>
                var n := TotalChunks(file.value.Size());
                var k := if refused.Some? && refused.value < n then refused.value + 1 else n;
                && |sent| == k
                && (forall i :: 0 <= i < k ==> sent[i] == MessageAt(file.value, title, description, uploadId, i))
      ensures old(Ready()) && refused.Some? && refused.value < TotalChunks(file.value.Size()) ==>
                status == UploadStatus.Errored && errorMessage == ChunkFailedPrefix + NatToString(refused.value + 1)
      ensures old(Ready()) && !(refused.Some? && refused.value < TotalChunks(file.value.Size())) ==>
                if completeOk then status == UploadStatus.Succeeded && errorMessage == old(errorMessage)
                else status == UploadStatus.Errored && errorMessage == CompleteFailedMessage
    {
      if file.None? || title == "" {
        return [];
      }
      status := UploadStatus.Uploading;
      var failed: Option<nat>;
      sent, failed := SendChunks(file.value, title, description, uploadId, refused);
      if failed.Some? {
        status := UploadStatus.Errored;
        errorMessage := ChunkFailedPrefix + NatToString(failed.value);
      } else if completeOk {
        status := UploadStatus.Succeeded;
      } else {
        status := UploadStatus.Errored;
        errorMessage := CompleteFailedMessage;
      }
    }
  }
}
