/** `S3Client`: a process-wide singleton around one boto3 S3 client, and
    `upload_file`, which picks the object key and the upload source and maps
    a `ClientError` to `False`. */
module S3 {
  import opened Wrappers
  import opened PosixPath
  import opened ObjectStore

  /** The object key: `object_name` if given, otherwise the last component of
      `file_name`; none when neither is given. */
  function ObjectKey(objectName: Option<string>, fileName: Option<string>): (r: Option<string>)
    ensures r.None? <==> !Given(objectName) && !Given(fileName)
    ensures Given(objectName) ==> r == objectName
  {
    if !Given(objectName) && !Given(fileName) then None
    else if !Given(objectName) then Some(Basename(fileName.value))
    else objectName
  }

  /** Without `object_name`, the key is the text after the last '/' of
      `file_name`: a suffix of it, free of '/', preceded by '/' when shorter. */
  lemma ObjectKeyIsBasename(objectName: Option<string>, fileName: Option<string>)
    requires !Given(objectName) && Given(fileName)
    ensures var key := ObjectKey(objectName, fileName);
      && key.Some? && '/' !in key.value && |key.value| <= |fileName.value|
      && fileName.value[|fileName.value| - |key.value|..] == key.value
      && (|key.value| < |fileName.value| ==> fileName.value[|fileName.value| - |key.value| - 1] == '/')
  {
    BasenameSpec(fileName.value);
  }

  /** What is uploaded: the stream `obj` when given (`upload_fileobj`),
      otherwise the file at `file_name` (`upload_file`). */
  datatype Source<O> = Stream(obj: O) | File(path: string)

  function UploadSource<O>(obj: Option<O>, fileName: Option<string>): Option<Source<O>>
  {
    if obj.Some? then Some(Stream(obj.value))
    else if Given(fileName) then Some(File(fileName.value))
    else None
  }

  /** `upload_file` on a store in state `bs`: the result and the new state. With a
      key but no source (no `obj`, `file_name` falsy), boto3 fails before any
      request with an exception that is not a `ClientError`. */
  function UploadFileOp<O>(bs: Buckets<O>, bucket: string, obj: Option<O>, objectName: Option<string>,
                           fileName: Option<string>, fault: Fault): (Call<bool>, Buckets<O>)
  {
    match ObjectKey(objectName, fileName)
    case None => (Returned(false), bs)
    case Some(key) =>
      match UploadSource(obj, fileName)
      case None => (Raised(OtherError), bs)
      case Some(Stream(o)) => Outcome(PutObjectOp(bs, bucket, key, StreamBody(o), fault))
      case Some(File(path)) => Outcome(FileUploadOp(bs, bucket, key, FileBody(path), fault))
  }

  /** `except ClientError: return False`; anything else propagates. */
  function Outcome<O>(put: (Fault, Buckets<O>)): (Call<bool>, Buckets<O>)
  {
    match put.0
    case None => (Returned(true), put.1)
    case Some(ClientError) => (Returned(false), put.1)
    case Some(e) => (Raised(e), put.1)
  }

  /** With neither `object_name` nor `file_name`, the result is `False` and nothing is uploaded. */
  lemma UploadWithoutNames<O>(bs: Buckets<O>, bucket: string, obj: Option<O>, fault: Fault)
    ensures UploadFileOp(bs, bucket, obj, None, None, fault) == (Returned(false), bs)
    ensures UploadFileOp(bs, bucket, obj, Some(""), Some(""), fault) == (Returned(false), bs)
  {
  }

  /** The upload succeeds exactly when there is a non-empty key and a source,
      no fault, and the bucket exists; it then stores the source under the key and
      changes nothing else. */
  lemma UploadSucceeds<O>(bs: Buckets<O>, bucket: string, obj: Option<O>, objectName: Option<string>,
                          fileName: Option<string>, fault: Fault)
    ensures var (r, after) := UploadFileOp(bs, bucket, obj, objectName, fileName, fault);
      && (r == Returned(true) <==>
            (Given(objectName) || Given(fileName)) && (obj.Some? || Given(fileName))
            && ObjectKey(objectName, fileName) != Some("") && fault.None? && bucket in bs)
      && (r == Returned(true) ==>
            var key := ObjectKey(objectName, fileName).value;
            && after.Keys == bs.Keys
            && after[bucket].versioning == bs[bucket].versioning
            && after[bucket].objects.Keys == bs[bucket].objects.Keys + {key}
            && after[bucket].objects[key] == (if obj.Some? then StreamBody(obj.value) else FileBody(fileName.value))
            && (forall k :: k in bs[bucket].objects && k != key ==> after[bucket].objects[k] == bs[bucket].objects[k])
            && (forall b :: b in bs && b != bucket ==> after[b] == bs[b]))
      && (r != Returned(true) ==> after == bs)
  {
  }

  /** An empty key is refused before any request, whatever the fault, and nothing is stored. */
  lemma UploadEmptyKey<O>(bs: Buckets<O>, bucket: string, obj: Option<O>, objectName: Option<string>,
                          fileName: Option<string>, fault: Fault)
    requires obj.Some? || Given(fileName)
    requires ObjectKey(objectName, fileName) == Some("")
    ensures UploadFileOp(bs, bucket, obj, objectName, fileName, fault) == (Raised(OtherError), bs)
  {
  }

  /** A `ClientError` from a stream upload yields `False`, a missing bucket
      included; from a file upload, boto3 re-raises it as an exception that
      is not a `ClientError`. A `NoCredentialsError` always propagates. */
  lemma UploadErrorMapping<O>(bs: Buckets<O>, bucket: string, obj: Option<O>, objectName: Option<string>,
                              fileName: Option<string>, fault: Fault)
    requires obj.Some? || Given(fileName)
    requires ObjectKey(objectName, fileName).Some? && ObjectKey(objectName, fileName) != Some("")
    ensures fault == Some(ClientError) ==>
      UploadFileOp(bs, bucket, obj, objectName, fileName, fault).0
        == if obj.Some? then Returned(false) else Raised(OtherError)
    ensures fault == Some(NoCredentialsError) ==>
      UploadFileOp(bs, bucket, obj, objectName, fileName, fault).0 == Raised(NoCredentialsError)
    ensures fault.None? && bucket !in bs ==>
      UploadFileOp(bs, bucket, obj, objectName, fileName, fault).0
        == if obj.Some? then Returned(false) else Raised(OtherError)
  {
    var key := ObjectKey(objectName, fileName).value;
    if obj.Some? {
      var put := PutObjectOp(bs, bucket, key, StreamBody(obj.value), fault);
      assert UploadFileOp(bs, bucket, obj, objectName, fileName, fault) == Outcome(put);
    } else {
      var put := FileUploadOp(bs, bucket, key, FileBody(fileName.value), fault);
      assert UploadFileOp(bs, bucket, obj, objectName, fileName, fault) == Outcome(put);
    }
  }

  /** A file upload never yields `False`. */
  lemma FileUploadNeverFalse<O>(bs: Buckets<O>, bucket: string, objectName: Option<string>,
                                fileName: Option<string>, fault: Fault)
    ensures UploadFileOp(bs, bucket, None, objectName, fileName, fault).0 != Returned(false)
      || (!Given(objectName) && !Given(fileName))
  {
  }

  /** An explicit `object_name` is the key, whatever `file_name` is; without
      one the key is the text after the last '/' of `file_name`. */
  lemma KeyChoice(objectName: string, fileName: Option<string>, path: string)
    ensures objectName != "" ==> ObjectKey(Some(objectName), fileName) == Some(objectName)
    ensures path != "" ==> ObjectKey(None, Some(path)) == Some(path[RFind(path, '/') + 1..])
  {
  }

  /** A `file_name` ending in '/' without `object_name` uploads under the empty key. */
  lemma TrailingSlashEmptyKey(path: string)
    requires path != "" && path[|path| - 1] == '/'
    ensures ObjectKey(None, Some(path)) == Some("")
  {
  }

  /** Such an upload is refused before any request, from a stream or a file,
      and nothing is stored. */
  lemma TrailingSlashRaises<O>(bs: Buckets<O>, bucket: string, obj: Option<O>, path: string, fault: Fault)
    requires path != "" && path[|path| - 1] == '/'
    ensures UploadFileOp(bs, bucket, obj, None, Some(path), fault) == (Raised(OtherError), bs)
  {
    TrailingSlashEmptyKey(path);
  }

  /** With a stream and an explicit `object_name`, `file_name` plays no part. */
  lemma StreamIgnoresFileName<O>(bs: Buckets<O>, bucket: string, obj: O, objectName: string,
                                 fileName1: Option<string>, fileName2: Option<string>, fault: Fault)
    requires objectName != ""
    ensures UploadFileOp(bs, bucket, Some(obj), Some(objectName), fileName1, fault)
         == UploadFileOp(bs, bucket, Some(obj), Some(objectName), fileName2, fault)
  {
  }

  /** The client object; `client` is the boto3 client `__init__` creates. */
  class S3Client<O> {
    var client: Store<O>

    /** The first construction: a new object, then `__init__`. */
    constructor (service: Store<O>)
      ensures client == service
    {
      client := service;
    }

    /** `__init__` on an existing object: rebinds the boto3 client. */
    method Init(service: Store<O>)
      modifies this
      ensures client == service
    {
      client := service;
    }

    /** `upload_file`. `extra_args` is passed to boto3 but has no effect in the model. */
    method UploadFile(bucket: string, obj: Option<O>, objectName: Option<string>, fileName: Option<string>,
                      extraArgs: map<string, string>, fault: Fault) returns (r: Call<bool>)
      modifies client
      ensures (r, client.buckets) == UploadFileOp(old(client.buckets), bucket, obj, objectName, fileName, fault)
    {
      if !Given(objectName) && !Given(fileName) {
        return Returned(false);
      }
      var key: string;
      if !Given(objectName) {
        key := Basename(fileName.value);
      } else {
        key := objectName.value;
      }
      var err: Fault;
      if obj.None? {
        if !Given(fileName) {
          return Raised(OtherError);
        }
        err := client.UploadFile(bucket, key, FileBody(fileName.value), fault);
      } else {
        err := client.UploadFileObj(bucket, key, StreamBody(obj.value), fault);
      }
      match err
      case None => return Returned(true);
      case Some(ClientError) => return Returned(false);
      case Some(e) => return Raised(e);
    }
  }

  /** The class object `S3Client` with its `_instance` attribute. */
  class S3ClientClass<O> {
    var instance: S3Client?<O>

    constructor ()
      ensures instance == null
    {
      instance := null;
    }

    /** `S3Client()`: `__new__` returns the existing instance or makes the
        first one, then `__init__` runs on it. */
    method New(service: Store<O>) returns (c: S3Client<O>)
      modifies this, instance
      ensures old(instance) != null ==> c == old(instance)
      ensures old(instance) == null ==> fresh(c)
      ensures instance == c && c.client == service
    {
      if instance == null {
        instance := new S3Client<O>(service);
      } else {
        instance.Init(service);
      }
      c := instance;
    }
  }

  /** Constructing the client twice gives the same object. */
  method ConstructTwice<O>(cls: S3ClientClass<O>, service: Store<O>) returns (a: S3Client<O>, b: S3Client<O>)
    modifies cls, cls.instance
    ensures a == b && cls.instance == a
  {
    a := cls.New(service);
    b := cls.New(service);
  }
}
