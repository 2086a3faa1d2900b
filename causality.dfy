/** Blob causality: which function invocation wrote a blob. The writer's GUID
    is kept in the blob's own metadata, under one reserved key. */
module BlobCausality {
  import opened Guids
  import opened Storage

  /** The reserved metadata key. Metadata names follow C# identifier rules. */
  const MetadataKeyName: string := "SimpleBatch_WriterFunc"

  predicate IsIdentifierStart(c: char) {
    'a' <= c <= 'z' || 'A' <= c <= 'Z' || c == '_'
  }

  predicate IsIdentifierPart(c: char) {
    IsIdentifierStart(c) || '0' <= c <= '9'
  }

  /** An ASCII C# identifier: a letter or underscore, then letters, digits
      and underscores. */
  predicate IsIdentifier(s: string) {
    |s| > 0 && IsIdentifierStart(s[0]) && forall i :: 1 <= i < |s| ==> IsIdentifierPart(s[i])
  }

  /** The reserved key is a C# identifier, as metadata names must be. */
  lemma MetadataKeyNameIsIdentifier()
    ensures IsIdentifier(MetadataKeyName)
  {
  }

  /** The metadata after stamping it with a writer: the reserved key holds the
      writer's text form, and every other key keeps its value. */
  function Stamp(m: map<string, string>, writer: Guid): (m': map<string, string>)
    ensures m'.Keys == m.Keys + {MetadataKeyName}
    ensures m'[MetadataKeyName] == ToString(writer)
    ensures forall k :: k in m && k != MetadataKeyName ==> m'[k] == m[k]
  {
    m[MetadataKeyName := ToString(writer)]
  }

  /** The writer recorded in a metadata map: the all-zero GUID when the key is
      absent or its value is not a GUID's text form, otherwise the GUID that
      value is the text form of. */
  function WriterOf(m: map<string, string>): (g: Guid)
    ensures MetadataKeyName !in m ==> g == Empty
    ensures MetadataKeyName in m && !IsCanonical(m[MetadataKeyName]) ==> g == Empty
    ensures MetadataKeyName in m && IsCanonical(m[MetadataKeyName]) ==> ToString(g) == m[MetadataKeyName]
  {
    if MetadataKeyName !in m then Empty
    else
      var (success, result) := TryParse(m[MetadataKeyName]);
      result
  }

  /** Reading a stamp gives back the writer that was stamped. */
  lemma ReadStamp(m: map<string, string>, writer: Guid)
    ensures WriterOf(Stamp(m, writer)) == writer
  {
    TryParseToString(writer);
  }

  /** A second stamp replaces the first and keeps the rest of the metadata. */
  lemma LastWriterWins(m: map<string, string>, first: Guid, second: Guid)
    ensures Stamp(Stamp(m, first), second) == Stamp(m, second)
    ensures WriterOf(Stamp(Stamp(m, first), second)) == second
  {
    ReadStamp(Stamp(m, first), second);
  }

  /** Exactly when the recorded writer is unknown. */
  lemma WriterUnknown(m: map<string, string>)
    ensures WriterOf(m) == Empty <==>
      || MetadataKeyName !in m
      || !IsCanonical(m[MetadataKeyName])
      || m[MetadataKeyName] == "00000000-0000-0000-0000-000000000000"
  {
    EmptyToString();
    if MetadataKeyName in m && IsCanonical(m[MetadataKeyName]) {
      var v := m[MetadataKeyName];
      TryParseToString(Empty);
      ToStringInjective(WriterOf(m), Empty);
      assert WriterOf(m) == Empty <==> v == ToString(Empty);
    }
  }

  /** Records `writer` as the writer of `blob`. The metadata is fetched first,
      because committing replaces the whole map. A `StorageClientException`
      from the fetch is taken to mean the blob was deleted, and the call then
      does nothing: a blob that exists but refuses the request stays
      unstamped. Any other exception from the fetch reaches the caller.
      The update of the client's copy is the one `Stamp` specifies. */
  method SetWriter(blob: Blob, writer: Guid) returns (r: Outcome)
    modifies blob`metadata, blob`serverMetadata
    ensures r == if blob.Status() == Fail(ServerFailure) then Fail(ServerFailure) else Pass
    ensures blob.Status() == Pass ==> blob.serverMetadata == Stamp(old(blob.serverMetadata), writer)
    ensures blob.Status() == Pass ==> blob.metadata == blob.serverMetadata
    ensures blob.Status().Fail? ==> blob.serverMetadata == old(blob.serverMetadata)
    ensures blob.Status().Fail? ==> blob.metadata == old(blob.metadata)
  {
    var fetched := blob.FetchAttributes();
    if fetched.Fail? {
      if IsClientException(fetched.error) {
        return Pass;
      }
      return fetched;
    }
    blob.metadata := blob.metadata[MetadataKeyName := ToString(writer)];
    r := blob.SetMetadata();
  }

  /** The writer recorded on `blob`, after refreshing its metadata. A failed
      fetch is not caught and reaches the caller. The lookup and parse are the
      ones `WriterOf` specifies. */
  method GetWriter(blob: Blob) returns (r: Result<Guid>)
    modifies blob`metadata
    ensures blob.serverMetadata == old(blob.serverMetadata)
    ensures r == match blob.Status()
      case Pass => Success(WriterOf(blob.serverMetadata))
      case Fail(e) => Failure(e)
    ensures blob.metadata == if blob.Status() == Pass then blob.serverMetadata else old(blob.metadata)
  {
    var fetched := blob.FetchAttributes();
    if fetched.Fail? {
      return Failure(fetched.error);
    }
    if MetadataKeyName !in blob.metadata {
      return Success(Empty);
    }
    var val := blob.metadata[MetadataKeyName];
    var (success, result) := TryParse(val);
    r := Success(result);
  }

  /** Stamping an existing blob on an available service and then reading it
      back gives the stamped writer, and every other metadata entry survives. */
  method SetThenGet(blob: Blob, writer: Guid) returns (r: Result<Guid>)
    requires blob.present && blob.service == Available
    modifies blob`metadata, blob`serverMetadata
    ensures r == Success(writer)
    ensures forall k :: k in old(blob.serverMetadata) && k != MetadataKeyName ==>
      k in blob.serverMetadata && blob.serverMetadata[k] == old(blob.serverMetadata)[k]
  {
    var stamped := SetWriter(blob, writer);
    r := GetWriter(blob);
    ReadStamp(old(blob.serverMetadata), writer);
  }

  /** Two completed stamps in sequence on an existing blob on an available
      service: the later writer is the one read back. */
  method SetTwiceThenGet(blob: Blob, first: Guid, second: Guid) returns (r: Result<Guid>)
    requires blob.present && blob.service == Available
    modifies blob`metadata, blob`serverMetadata
    ensures r == Success(second)
  {
    var one := SetWriter(blob, first);
    var two := SetWriter(blob, second);
    r := GetWriter(blob);
    LastWriterWins(old(blob.serverMetadata), first, second);
  }
}
