# Blob causality logger, modelled in Dafny

The job host records which function invocation wrote a blob. It stores the
invocation's GUID in the blob's own metadata, under the reserved key
`SimpleBatch_WriterFunc`, and reads that key back to find the writer later.
Blob metadata writes replace the whole metadata map. So `SetWriter` fetches
the current map, overwrites only the stamp key and commits the whole map. If
the fetch throws a `StorageClientException`, the blob is taken to be deleted
and `SetWriter` returns without writing; any other exception from the fetch
reaches the caller. `GetWriter` fetches the map and looks up the key. A missing
key gives the all-zero GUID. Otherwise the result is whatever `Guid.TryParse`
put in its out parameter. The success flag is ignored, and a failed parse
leaves the out value at the all-zero GUID.

The project has three modules:

- `Guids` (guids.dfy): a GUID as 16 bytes. `ToString` gives the canonical
  lowercase 8-4-4-4-12 hexadecimal form (section 3 of RFC 4122). `TryParse`
  accepts exactly that form and, like .NET's `Guid.TryParse`, returns a
  success flag together with a result that is the all-zero GUID on failure.
  Lemmas prove that parsing inverts formatting and, for canonical strings,
  that formatting inverts parsing.
- `Storage` (storage.dfy): the storage client as a `Blob` class with four
  fields. `present` says whether the blob still exists. `service` says how
  the service answers: `Available`, `Refusing` (authentication failed or
  access denied) or `Failing` (server busy, internal error, time-out).
  `serverMetadata` is the metadata held by the service. `metadata` is the
  client's copy, the blob's `Metadata` collection. `FetchAttributes` copies
  the service's map into the client's copy. `SetMetadata` copies the client's
  copy to the service. Both fail with `ServerFailure` on a failing service,
  with `RequestRefused` on a refusing one, and with `BlobNotFound` on a
  deleted blob. The first of these the client library throws as
  `StorageServerException`, the other two as `StorageClientException`
  (`IsClientException`). Exceptions become returned `Outcome` or `Result`
  values.
- `BlobCausality` (causality.dfy): the logger. `SetWriter` and `GetWriter` are
  methods that follow the C# step by step. They are proved against two pure
  specifications: `Stamp`, the map after stamping, and `WriterOf`, the writer
  read from a map. Lemmas about these two give the round trip, last writer
  wins, and exactly when the writer reads as unknown.

Two points where the code's behaviour is easy to misread:

- `SetWriter` catches every `StorageClientException` thrown by the fetch
  (src/SimpleBatch.Host/RunnerInterfaces/Logging/BlobCausalityLogger.cs:23-31),
  not only the one for a deleted blob. So a fetch that the service refuses
  (authentication, access denied) also makes `SetWriter` return normally,
  and a blob that still exists is left unstamped. A `StorageServerException`
  (server busy, internal error, time-out) is not caught and reaches the
  caller. `SetWriter`'s contract states both: on any failed fetch neither map
  changes, and only `ServerFailure` is returned. `GetWriter` catches
  nothing, so every fetch failure reaches its caller.
- `GetWriter` ignores the success flag of `Guid.TryParse`
  (BlobCausalityLogger.cs:47-48). This does not return an arbitrary value:
  .NET sets the out parameter to `Guid.Empty` when parsing fails, so a
  malformed stamp reads as the all-zero GUID, the same as a missing one.
  `TryParse` models that, and `WriterOf` and `WriterUnknown` state it.

## Model

| member | source | states |
|---|---|---|
| `BlobCausality.MetadataKeyNameIsIdentifier` | src/SimpleBatch.Host/RunnerInterfaces/Logging/BlobCausalityLogger.cs:14-16 | the reserved key is a C# identifier (a letter or underscore, then letters, digits and underscores), as metadata names must be |
| `Guids.ToString` | src/SimpleBatch.Host/RunnerInterfaces/Logging/BlobCausalityLogger.cs:33 | the stamp text written for a GUID is always in canonical form: 36 characters, with hyphens at positions 8, 13, 18 and 23 and lowercase hex digits in groups of 8-4-4-4-12 |
| `Guids.TryParse` | src/SimpleBatch.Host/RunnerInterfaces/Logging/BlobCausalityLogger.cs:46-47 | parsing succeeds exactly when the string is in canonical form; on success, the result's text form is the input string; on failure, the out value is the all-zero GUID |
| `Guids.TryParseToString` | src/SimpleBatch.Host/RunnerInterfaces/Logging/BlobCausalityLogger.cs:47 | parsing the text form of any GUID succeeds and gives back that GUID |
| `Guids.ToStringInjective` | src/SimpleBatch.Host/RunnerInterfaces/Logging/BlobCausalityLogger.cs:33 | two different GUIDs never produce the same stamp text |
| `Guids.EmptyToString` | src/SimpleBatch.Host/RunnerInterfaces/Logging/BlobCausalityLogger.cs:44 | the all-zero GUID's text form is `00000000-0000-0000-0000-000000000000` |
| `Storage.Blob.FetchAttributes` | src/SimpleBatch.Host/RunnerInterfaces/Logging/BlobCausalityLogger.cs:25 | on an existing blob on an available service, the client's metadata becomes exactly the service's metadata; otherwise it fails (server failure, refused request, or not found) and the client's copy is unchanged |
| `Storage.Blob.SetMetadata` | src/SimpleBatch.Host/RunnerInterfaces/Logging/BlobCausalityLogger.cs:34 | on an existing blob on an available service, the service's metadata is replaced as a whole by the client's copy; otherwise it fails and the service's metadata is unchanged |
| `BlobCausality.Stamp` | src/SimpleBatch.Host/RunnerInterfaces/Logging/BlobCausalityLogger.cs:33 | stamping adds only the reserved key; that key holds the writer's text form; every other key keeps its value |
| `BlobCausality.WriterOf` | src/SimpleBatch.Host/RunnerInterfaces/Logging/BlobCausalityLogger.cs:41-50 | an absent key gives the all-zero GUID; a value not in canonical form gives the all-zero GUID; a canonical value gives the GUID whose text form it is |
| `BlobCausality.ReadStamp` | src/SimpleBatch.Host/RunnerInterfaces/Logging/BlobCausalityLogger.cs:33-50 | reading the writer back from any stamped map gives the writer that was stamped |
| `BlobCausality.LastWriterWins` | src/SimpleBatch.Host/RunnerInterfaces/Logging/BlobCausalityLogger.cs:33-34 | stamping twice equals stamping with the second writer alone, and the second writer is the one read back |
| `BlobCausality.WriterUnknown` | src/SimpleBatch.Host/RunnerInterfaces/Logging/BlobCausalityLogger.cs:41-50 | the writer reads as the all-zero GUID if and only if the key is absent, or its value is not canonical, or its value is the all-zero GUID's text |
| `BlobCausality.SetWriter` | src/SimpleBatch.Host/RunnerInterfaces/Logging/BlobCausalityLogger.cs:19-35 | on an existing blob on an available service, the service's metadata becomes the old metadata stamped with the writer, so all other keys are kept; on any failed fetch neither map changes; a `StorageClientException` (deleted blob, refused request) is swallowed and the call returns normally; a server failure is returned to the caller |
| `BlobCausality.GetWriter` | src/SimpleBatch.Host/RunnerInterfaces/Logging/BlobCausalityLogger.cs:37-51 | the service's metadata is never changed; on an existing blob on an available service, the result is the writer recorded in the service's metadata; otherwise the fetch failure reaches the caller unchanged |
| `BlobCausality.SetThenGet` | src/SimpleBatch.Host/RunnerInterfaces/Logging/BlobCausalityLogger.cs:19-51 | on an existing blob on an available service, stamping and then reading gives back the stamped writer, and every other metadata entry survives |
| `BlobCausality.SetTwiceThenGet` | src/SimpleBatch.Host/RunnerInterfaces/Logging/BlobCausalityLogger.cs:19-51 | on an existing blob on an available service, two completed stamps in sequence, then a read, give the second writer |

## Left out

- The trigger map and trigger callback interfaces (src/SimpleBatch.Host/Triggering/ITriggerMap.cs, src/SimpleBatch.Host/Triggering/ITriggerInvoke.cs): they hold only signatures. No implementation is part of this model, so registry and dispatch behaviour would be invented.
- The Service Bus configuration tests: they cover option defaults and log levels of code that is not part of this model.
- Concurrent writers: another writer may change the metadata between `SetWriter`'s fetch and its commit. The model is sequential and does not capture that lost update.
- Storage failures: three causes are modelled, `BlobNotFound` and `RequestRefused` (both `StorageClientException`) and `ServerFailure` (`StorageServerException`). Which one a call fails with is fixed by the blob's `present` and `service` fields, so the service does not change its answer between the fetch and the commit of one `SetWriter` call. Exceptions of other types (argument errors, a missing network stack) are not modelled; they too would leave `SetWriter` uncaught. Retries are not modelled.
- `Guids.TryParse`: accepts only the canonical lowercase hyphenated form. .NET also accepts uppercase digits, the N, B, P and X formats, and surrounding white space. The stamps this code writes are always canonical, so the round trip does not depend on those formats.
- GUID byte order: the 16 bytes are kept in the order the text form prints them, not in .NET's internal field layout. Only the text form matters to the logger.
- Case-insensitive metadata keys: the storage client's metadata collection compares keys without regard to case, and the model compares them exactly. A stored key that differs from the reserved key only in case, such as `simplebatch_writerfunc`, is in the code the same entry: `GetWriter` reads it and `SetWriter` overwrites it. In the model it is a separate key: `WriterOf` ignores it, and `Stamp` keeps it beside the reserved key.
- The `DebuggerNonUserCode` attribute affects only the debugger and is not modelled.
- An exception thrown by the commit inside `SetWriter` would reach the caller; the returned `Outcome` stands for it. In the sequential model the commit follows a successful fetch, so it never fails.
