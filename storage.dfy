/** The part of the blob storage client that the causality logger uses: a blob
    whose metadata lives on the storage service, and the client-side copy of
    that metadata that FetchAttributes refreshes and SetMetadata commits. */
module Storage {

  /** A storage exception. The client library throws `StorageClientException`
      for errors in the request (the blob is gone; authentication failed or
      access was denied), and `StorageServerException` for failures on the
      service side (server busy, which is how throttling is reported; internal
      errors; time-outs). */
  datatype StorageError = BlobNotFound | RequestRefused | ServerFailure

  /** Whether an error is thrown as a `StorageClientException`. */
  predicate IsClientException(e: StorageError) {
    e != ServerFailure
  }

  /** How the storage service currently answers requests about a blob. */
  datatype Service = Available | Refusing | Failing

  /** The completion of a storage call that returns nothing: normal, or an exception. */
  datatype Outcome = Pass | Fail(error: StorageError)

  /** The completion of a storage call that returns a value, or an exception. */
  datatype Result<T> = Success(value: T) | Failure(error: StorageError)

  class Blob {
    /** Whether the blob still exists on the service. */
    var present: bool
    /** Whether requests reach the service, and how it answers them. */
    var service: Service
    /** The metadata the service holds for the blob. */
    var serverMetadata: map<string, string>
    /** The client's copy of the metadata (the blob's Metadata collection). */
    var metadata: map<string, string>

    /** How a call on this blob completes: a failing or refusing service
        decides first, then a deleted blob. */
    function Status(): (r: Outcome)
      reads this
      ensures r == Pass <==> service == Available && present
      ensures r == Fail(BlobNotFound) <==> service == Available && !present
      ensures r == Fail(ServerFailure) <==> service == Failing
    {
      match service
      case Failing => Fail(ServerFailure)
      case Refusing => Fail(RequestRefused)
      case Available => if present then Pass else Fail(BlobNotFound)
    }

    /** Replaces the client's copy by the service's metadata; on failure the copy is kept. */
    method FetchAttributes() returns (r: Outcome)
      modifies this`metadata
      ensures r == Status()
      ensures metadata == if r.Pass? then serverMetadata else old(metadata)
    {
      r := Status();
      if r.Pass? {
        metadata := serverMetadata;
      }
    }

    /** Replaces the service's metadata, as a whole, by the client's copy; on
        failure the service's metadata is kept. */
    method SetMetadata() returns (r: Outcome)
      modifies this`serverMetadata
      ensures r == Status()
      ensures serverMetadata == if r.Pass? then metadata else old(serverMetadata)
    {
      r := Status();
      if r.Pass? {
        serverMetadata := metadata;
      }
    }
  }
}
