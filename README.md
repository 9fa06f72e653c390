# mlops-pipeline-api, modelled in Dafny

The service is a FastAPI front end to a machine-learning pipeline. Its own
logic, which this project models and proves properties of, is small:

- **Request schemas** (`UserInputRequest`, `FeedbackInputRequest`): a record of fourteen
  required fields. Each field has numeric bounds, a set of allowed literals or a minimum
  length. Six fields are renamed to hyphenated keys when a record is serialised.
  The model is module `Schemas`.
- **Upload format dispatch** (`DataFactory.from_bytes`): `os.path.splitext` takes the file
  name's extension, which selects one of four pandas readers or "unsupported".
  The model is modules `PosixPath` and `DataFactory`.
- **Bearer-token check** (`get_bearer_token`): empty credentials are rejected. Otherwise the
  last whitespace-separated word is compared with the configured secret. There are two
  different 401 responses. Whitespace-only credentials crash on `split()[-1]`; the model
  keeps that crash as an outcome of its own. The model is module `Middleware`.
- **Column metadata** (`retrieve_metadata`): for each column, the distinct non-missing
  values in order of first appearance. The model is module `Utils`.
- **Object-store clients** (`S3Client`, `DVCClient`): process-wide singletons around one
  S3 client. `upload_file` picks the object key and the upload source. `save_data_to`
  creates the bucket with versioning enabled when it is absent, then uploads the object.
  `read_data_from` fetches the object back. Both map some exceptions to `False` or `None`.
  The model is modules `ObjectStore` (an in-memory S3 service), `S3` and `Dvc`.

The service is an S3-compatible store. The model keeps it as a map from bucket names to
buckets, each with a versioning status and a key-to-content map. Whether a call fails for
a reason outside the model (network, credentials, permissions) is an explicit argument of
type `Fault`: the exception the call raises, or none. Every imperative method is proved
equal to a pure function of the old state (`SaveOp`, `ReadOp`, `UploadFileOp`, ...). The
lemmas are stated about those functions.

Versioning is only set in the same `save_data_to` call that creates the bucket. If
`put_bucket_versioning` fails after `create_bucket` succeeded, the bucket stays
unversioned, and later saves do not repair it (`Dvc.SaveLeavesUnversionedBucket`).

Python semantics written out in the model:
- `str.split()` splits on the 29 characters for which `str.isspace` holds.
- `os.path.splitext` follows the POSIX rules: leading dots belong to the name, and a dot in
  a directory does not count.
- A falsy `bucket_name`, `object_name` or `file_name` is `None` or `""`.
- An `int` field accepts a float without a fractional part, as pydantic's lax mode does.

## Model

| member | source | states |
|---|---|---|
| `Schemas.CoerceAdmitted` | app/schemas.py:9-39 | converting an accepted number to its declared `float`/`int` type keeps it accepted, and converting twice changes nothing |
| `Schemas.NameInjective` | app/schemas.py:9-40 | no two fields are read from the same key |
| `Schemas.Read` | app/schemas.py:8-40 | a field is supplied exactly when its key is in the body, with the body's value; other keys are ignored |
| `Schemas.AllAcceptedIff` | app/schemas.py:8-40 | the field-by-field check equals "every field is present and admitted": all fields are required |
| `Schemas.ValidAdmitted` | app/schemas.py:9-40 | a record within the stated bounds, literals and length satisfies every field's declared rule |
| `Schemas.AdmittedNumbers` | app/schemas.py:9-39 | a record whose fields satisfy their rules has age in [0,200], fnlwgt in [1,10 000 000], educational_num in [1,16], capital gain and loss >= 0 and hours_per_week an integer in [0,65] |
| `Schemas.AdmittedTexts` | app/schemas.py:10-40 | a record whose fields satisfy their rules has each categorical field among its two literals and native_country at least 2 long |
| `Schemas.FieldValuesTyped` | app/schemas.py:9-40 | a record's stored values already have their declared types |
| `Schemas.FieldValueInjective` | app/schemas.py:8-40 | a record is determined by its fourteen field values |
| `Schemas.BuildHolds` | app/schemas.py:8-40 | the record built from accepted fields holds each supplied value converted to its field's type |
| `Schemas.BuildNumbers` | app/schemas.py:9-39 | the record built from accepted fields satisfies every numeric bound |
| `Schemas.BuildTexts` | app/schemas.py:10-40 | the record built from accepted fields satisfies every literal and length constraint |
| `Schemas.Validate` | app/schemas.py:8-40 | succeeds exactly when every field is accepted, with a valid record holding the converted values; otherwise fails with exactly the set of rejected or missing fields, never empty |
| `Schemas.ParseUser` | app/schemas.py:8-40 | validating a body succeeds exactly when every field's key is present with an admitted value; the record is valid and holds the converted values; otherwise the error is exactly the set of missing or rejected fields |
| `Schemas.ToPayload` | app/schemas.py:8-40 | a record written back under its field names holds each field's value under that field's key, and no other key |
| `Schemas.ParseToPayload` | app/schemas.py:8-40 | a record's own body validates exactly when the record is valid, and then gives back the same record |
| `Schemas.ParseIgnoresOtherKeys` | app/schemas.py:8 | two bodies that agree on the fourteen keys validate to the same outcome |
| `Schemas.AliasRenames` | app/schemas.py:17-40 | a field's serialisation key differs from its name exactly for the six fields that declare `serialization_alias` |
| `Schemas.NameHasNoHyphen` | app/schemas.py:9-40 | no input name contains '-' |
| `Schemas.RenamedAliasHasHyphen` | app/schemas.py:22-40 | every declared alias contains '-' |
| `Schemas.NameNotAlias` | app/schemas.py:17-40 | an alias equals some field's input name only for an unrenamed field, and only its own name |
| `Schemas.AliasInjective` | app/schemas.py:22-40 | no two fields are serialised under the same key |
| `Schemas.Dump` | app/schemas.py:17-40 | serialising by alias writes every field's value under its alias and no other key; a field's input name appears exactly when the field is not renamed |
| `Schemas.DumpNotReparseable` | app/schemas.py:17-40 | aliases apply to output only: a serialised record does not validate again; the six renamed fields are reported, and for a valid record nothing else |
| `Schemas.Feedback` | app/schemas.py:43-47 | a feedback record validates exactly when the user fields do, `task_id` is a string and `income` is "<=50K" or ">50K"; the record extends the user record; the errors name exactly the failing user fields and added keys |
| `Schemas.ParseFeedbackSpec` | app/schemas.py:43-47 | a feedback body validates exactly when its user fields do and it has a string `task_id` and an allowed `income`; the record's user part is the user record |
| `PosixPath.RFind` | app/core/s3_client.py:46 | the index of the last occurrence of a character, or -1 exactly when it does not occur |
| `PosixPath.BasenameSpec` | app/core/s3_client.py:46 | the base name is a suffix of the path with no '/', preceded by '/' when shorter than the path |
| `PosixPath.SplitExt` | app/core/data_factory.py:25 | the root and the extension concatenate to the path |
| `PosixPath.SplitExtIsExtension` | app/core/data_factory.py:25 | a non-empty extension from `splitext` is exactly a suffix shaped like an extension that has a non-dot character before it in the last path component, in both directions |
| `PosixPath.SplitExtHasExtension` | app/core/data_factory.py:25 | a non-empty extension found by `splitext` is an extension of the path in the independent sense |
| `PosixPath.ExtensionIsSplitExt` | app/core/data_factory.py:25 | every extension of the path in the independent sense is what `splitext` splits off, with the rest as root |
| `PosixPath.SplitExtShape` | app/core/data_factory.py:25 | a non-empty extension starts with its only '.' and contains no '/' |
| `PosixPath.SplitExtLastSuffix` | app/core/data_factory.py:25 | only the last suffix is the extension: "a.tar.csv" gives ".csv" |
| `PosixPath.SplitExtLeadingDots` | app/core/data_factory.py:25 | ".csv" and "..csv" have no extension |
| `PosixPath.SplitExtDirectoryDot` | app/core/data_factory.py:25 | a dot in a directory name is not an extension |
| `DataFactory.FormatOf` | app/core/data_factory.py:27-39 | a reader is chosen exactly when the extension is one of that reader's extensions, so the outcomes are disjoint and exhaustive |
| `DataFactory.SupportedAreExtensions` | app/core/data_factory.py:27-34 | every supported extension has the shape `splitext` can produce |
| `DataFactory.ReaderForIff` | app/core/data_factory.py:25-39 | a reader is chosen for a file name exactly when the name has one of that reader's extensions |
| `DataFactory.UnsupportedIff` | app/core/data_factory.py:25-39 | a file name is unsupported exactly when it has none of the supported extensions |
| `DataFactory.ReaderForSuffixExamples` | app/core/data_factory.py:25-28 | "a.tar.csv" is read as CSV; ".csv" is unsupported |
| `DataFactory.ReaderForCaseSensitive` | app/core/data_factory.py:27 | "DATA.CSV" is unsupported |
| `DataFactory.ReaderForNoExtension` | app/core/data_factory.py:35-39 | a name without a dot is unsupported |
| `Middleware.WordEndFrom` | app/middleware.py:26 | the end of the run of characters starting at an index lies within the string, past the index when the run starts with a non-space |
| `Middleware.WordEndFromSpec` | app/middleware.py:26 | a run holds no whitespace and stops at whitespace or at the end of the string |
| `Middleware.SplitWords` | app/middleware.py:26 | every piece of `split()` is a non-empty word without whitespace |
| `Middleware.SplitEmptyIff` | app/middleware.py:20-26 | `split()` gives no words exactly when the string is only whitespace |
| `Middleware.WordEndFromSuffix` | app/middleware.py:26 | a run ends at the same place in a string and in a suffix of it |
| `Middleware.SplitFromSuffix` | app/middleware.py:26 | splitting inside a suffix of a string is splitting that suffix |
| `Middleware.WordEndFromPrefix` | app/middleware.py:26 | a run inside a prefix stops before a whitespace character that follows the prefix |
| `Middleware.SplitFromAppend` | app/middleware.py:26 | splitting `a + [c] + b` at a whitespace `c` is splitting `a`, then splitting `b` |
| `Middleware.SplitAppend` | app/middleware.py:26 | `split()` distributes over a whitespace character |
| `Middleware.SplitWord` | app/middleware.py:26 | a single word splits into itself |
| `Middleware.LastWordFrom` | app/middleware.py:26 | the last word of a split ends the string as a whole word followed only by whitespace |
| `Middleware.GetBearerToken` | app/middleware.py:17-34 | empty credentials give 401 "Unauthorized. Expected bearer token."; whitespace-only credentials reach the `IndexError`; otherwise the request is accepted or gets 401 "Unauthorized. Provided bearer token invalid." |
| `Middleware.SplitWordThenSpaces` | app/middleware.py:26 | a word followed by whitespace splits into that word alone |
| `Middleware.EndingWordIsToken` | app/middleware.py:26-29 | a secret that ends the credentials as a whole word is the token compared |
| `Middleware.AuthorizedIff` | app/middleware.py:26-34 | the request is accepted exactly when the secret is a word that ends the credentials as a whole word, followed by nothing but whitespace |
| `Middleware.LeadingWordsIgnored` | app/middleware.py:26 | words before the last are ignored: "Bearer abc" is treated like "abc" |
| `Middleware.NonWordSecretNeverMatches` | app/middleware.py:26-34 | a secret that is empty or contains whitespace never matches |
| `Utils.DropNa` | app/utils.py:10 | the present values of a column, no more of them than cells; a value is kept exactly when it is present in the column |
| `Utils.Unique` | app/utils.py:10 | the same values without duplicates, ordered by first occurrence |
| `Utils.DropNaAppend` | app/utils.py:10 | dropping missing cells distributes over concatenation |
| `Utils.ColumnValuesSpec` | app/utils.py:10 | a column's entry lists exactly its present values, each once, in order of first appearance in the column |
| `Utils.RetrieveMetadata` | app/utils.py:6-11 | one entry per column label holding that column's distinct present values; no entries for a table with no columns; the `AttributeError` outcome exactly when a label is duplicated |
| `ObjectStore.ListBucketsOp` | app/core/dvc_client.py:66-69 | lists exactly the existing buckets unless the call faults |
| `ObjectStore.CreateBucketOp` | app/core/dvc_client.py:72 | adds one new, empty, unversioned bucket; an injected fault is the error returned; otherwise a name in use is refused with `ClientError`; existing buckets are unchanged |
| `ObjectStore.PutVersioningOp` | app/core/dvc_client.py:76-78 | sets the status of an existing bucket only; an injected fault is the error returned; otherwise a missing bucket is a `ClientError` |
| `ObjectStore.PutObjectOp` | app/core/s3_client.py:50-58 | stores the body under the key in an existing bucket and changes nothing else; an empty key is refused before the request with an error that is not a `ClientError`; a missing bucket is a `ClientError`; any failure changes nothing |
| `ObjectStore.FileUploadOp` | app/core/s3_client.py:51-53 | a file upload changes the store as `put_object` does, but its caller never sees a `ClientError`: boto3 re-raises one as `S3UploadFailedError` (`OtherError`); other errors pass unchanged |
| `ObjectStore.GetObjectOp` | app/core/dvc_client.py:44 | returns the content under the key; an empty key is refused with an error that is not a `ClientError`; a missing bucket or key is a `ClientError` |
| `ObjectStore.Store.constructor` | app/core/s3_client.py:23-28 | the service starts with the given buckets |
| `ObjectStore.Store.ListBuckets` | app/core/dvc_client.py:66 | returns what `ListBucketsOp` gives for the current buckets |
| `ObjectStore.Store.CreateBucket` | app/core/dvc_client.py:72 | the result and the new buckets are those of `CreateBucketOp` |
| `ObjectStore.Store.PutBucketVersioning` | app/core/dvc_client.py:76-78 | the result and the new buckets are those of `PutVersioningOp` |
| `ObjectStore.Store.UploadFile` | app/core/s3_client.py:51-53 | the result and the new buckets are those of `FileUploadOp`: no `ClientError` reaches the caller |
| `ObjectStore.Store.UploadFileObj` | app/core/s3_client.py:55-57 | the result and the new buckets are those of `PutObjectOp`: the service's `ClientError`, a missing bucket included, reaches the caller |
| `ObjectStore.Store.PutObject` | app/core/s3_client.py:50-58 | the result and the new buckets are those of `PutObjectOp` |
| `ObjectStore.Store.GetObject` | app/core/dvc_client.py:44 | returns what `GetObjectOp` gives for the current buckets |
| `S3.ObjectKey` | app/core/s3_client.py:41-46 | no key exactly when neither name is given; an explicit `object_name` is the key |
| `S3.ObjectKeyIsBasename` | app/core/s3_client.py:45-46 | without `object_name`, the key is the text after the last '/' of `file_name`: a '/'-free suffix, preceded by '/' when shorter |
| `S3.UploadWithoutNames` | app/core/s3_client.py:41-42 | with neither name, `False` and the store unchanged |
| `S3.UploadSucceeds` | app/core/s3_client.py:30-63 | `True` exactly when there is a non-empty key and a source, no fault and the bucket exists; then the bucket holds the source under the key and nothing else changes; otherwise the store is unchanged |
| `S3.UploadErrorMapping` | app/core/s3_client.py:49-63 | with a non-empty key: a `ClientError`, a missing bucket included, gives `False` for a stream upload but an exception for a file upload; a `NoCredentialsError` propagates |
| `S3.UploadEmptyKey` | app/core/s3_client.py:49-58 | an empty key is refused before any request with an exception that is not a `ClientError`, and nothing is stored |
| `S3.FileUploadNeverFalse` | app/core/s3_client.py:41-63 | a file upload returns `False` only when neither name is given |
| `S3.KeyChoice` | app/core/s3_client.py:44-46 | an explicit `object_name` wins over `file_name`; without one the key is the text after the last '/' |
| `S3.TrailingSlashEmptyKey` | app/core/s3_client.py:45-46 | a `file_name` ending in '/' without `object_name` gives the empty key |
| `S3.TrailingSlashRaises` | app/core/s3_client.py:45-58 | such an upload raises an exception that is not a `ClientError`, from a stream or a file, and stores nothing |
| `S3.StreamIgnoresFileName` | app/core/s3_client.py:50-58 | with a stream and an explicit `object_name`, `file_name` plays no part |
| `S3.S3Client.constructor` | app/core/s3_client.py:22-28 | a new client object bound to the service |
| `S3.S3Client.Init` | app/core/s3_client.py:22-28 | `__init__` rebinds the client to the service |
| `S3.S3Client.UploadFile` | app/core/s3_client.py:30-63 | the result and the new store state are those of `UploadFileOp` on the old state |
| `S3.S3ClientClass.New` | app/core/s3_client.py:16-20 | returns the existing instance if there is one, otherwise a new one that becomes the instance; either way bound to the service |
| `S3.ConstructTwice` | app/core/s3_client.py:16-20 | constructing `S3Client()` twice gives the same object |
| `Dvc.SaveProvisionsMissingBucket` | app/core/dvc_client.py:71-90 | saving into a missing bucket creates it with versioning enabled, holding just the object, and touches no other bucket; an empty `destination` raises at the upload and leaves the new bucket empty |
| `Dvc.SaveKeepsExistingBucket` | app/core/dvc_client.py:80-90 | saving into an existing bucket creates nothing and keeps its versioning status; only the object under `destination` changes; an empty `destination` raises and changes nothing |
| `Dvc.SaveSucceedsIff` | app/core/dvc_client.py:64-98 | `True` exactly when every service call that is reached succeeds and `destination` is not empty |
| `Dvc.SaveErrorMapping` | app/core/dvc_client.py:64-98 | only an exception other than `ClientError` or `NoCredentialsError` escapes; a failure of the listing, of `create_bucket` or of `put_bucket_versioning` goes through the `except` (those two give `False`) with the state reached so far kept; at the upload, `NoCredentialsError` gives `False` but a `ClientError` escapes re-raised by boto3 |
| `Dvc.SaveFailureFrame` | app/core/dvc_client.py:64-97 | a failed save leaves every existing bucket unchanged; it may leave behind only the target bucket, empty, since nothing is rolled back |
| `Dvc.SaveLeavesUnversionedBucket` | app/core/dvc_client.py:71-81 | a versioning failure after creation leaves an unversioned bucket, and a later save does not enable versioning |
| `Dvc.ReadSpec` | app/core/dvc_client.py:43-50 | the stored object is returned exactly when the key is non-empty and holds a dump; `None` exactly on a `ClientError`, a missing bucket or key included; an empty key and other exceptions propagate |
| `Dvc.SaveThenRead` | app/core/dvc_client.py:38-98 | after a successful save, reading the same key from the same bucket returns the object saved |
| `Dvc.SaveKeepsOtherKeys` | app/core/dvc_client.py:83-90 | saving under one key leaves what is read under every other key, in every bucket, unchanged |
| `Dvc.DVCClient.constructor` | app/core/dvc_client.py:28-36 | a new client object bound to the service |
| `Dvc.DVCClient.Init` | app/core/dvc_client.py:28-36 | `__init__` rebinds the client to the service |
| `Dvc.DVCClient.ReadDataFrom` | app/core/dvc_client.py:38-50 | the result is `ReadOp` on the current store and the resolved bucket |
| `Dvc.DVCClient.SaveDataTo` | app/core/dvc_client.py:52-98 | the result and the new store state are those of `SaveOp` on the old state and the resolved bucket, whatever `extra_args` is |
| `Dvc.DVCClientClass.New` | app/core/dvc_client.py:22-26 | returns the existing instance if there is one, otherwise a new one that becomes the instance; either way bound to the service |
| `Dvc.SaveThroughOneReadThroughOther` | app/core/dvc_client.py:22-26 | two constructions return one and the same client, the class's instance: what a save through one stores, a read through the other returns |

## Left out

- The Celery client (`app/core/celery_client.py`) is a pass-through to Celery's task API. The service has no task-lifecycle logic of its own, so none is modelled.
- The pandas readers, the `BytesIO` wrapping and the log message in `from_bytes` are not modelled. The model gives only which reader is chosen.
- Windows path rules (`ntpath`) are not modelled; only the POSIX `splitext` and `basename` are.
- `json.dumps` in `retrieve_metadata` is not modelled. The result is a map from column label to value list. Column order and JSON key order are not kept.
- Utils.RetrieveMetadata: any column type is treated as hashable and comparable, and NaN-like values are the `Missing` cells. pandas' own equality rules (NaN != NaN, 1 == 1.0) are not modelled.
- Schemas.ParseUser: `null`, booleans and numeric strings are not values of the model. pydantic rejects `null` for these required fields and, in lax mode, converts booleans and numeric strings to numbers; its NaN/infinity handling is not modelled either. A JSON value is an integer, a real or a string.
- Schemas.ParseUser: validation errors are a set of field names, without pydantic's messages or their order.
- `FileMetadataResponse` and `AsyncTaskResponse` carry no constraints and are not modelled.
- FastAPI's wiring is not modelled: returning 422 on a validation error, and `HTTPBearer` taking the credentials from the `Authorization` header. `HTTPBearer` answers 403 when that header is missing.
- Logging is not modelled.
- Environment variables are parameters: the secret `expectedToken` and the default bucket `defaultBucket`. The `KeyError` raised when one is unset is not modelled.
- The boto3 client's construction, the network and credentials are not modelled. Each service call gets an explicit `Fault` argument instead.
- A store call fails only through its `Fault` or the state conditions the model states. Of botocore's request validation, only the rejection of an empty object key is modelled. Bucket-name rules are not.
- The service keeps only the latest content under a key. Versioning is a status per bucket, and object version history is not modelled.
- `ExtraArgs` (S3 upload options) has no effect in the model.
- `joblib.dump`, the temporary file and their failures are not modelled. A saved object is stored as `Serialized(obj)`.
- Dvc.ReadOp: content that is not a `joblib` dump is an `OtherError`. The actual unpickling exception is not modelled.
- S3.UploadFileOp: a supplied `obj` is taken as truthy. An object that Python treats as false would select the file path instead, and that case is not modelled.
- The local file system behind `FileBody(path)` is not modelled. A file upload stores the path, not the file's bytes.
- `get_metadata` (in `app/utils.py` and `S3Client`) and `create_dir` (in `app/clients/dvc.py`) are single pass-through calls to the service, so they are not modelled.
- Concurrent requests and thread safety of the singletons are not modelled.
