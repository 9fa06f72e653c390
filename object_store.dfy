/** An abstract, in-memory S3-compatible service: named buckets, each with a
    versioning status and a key-to-object map, and the five calls the clients
    make on it. Whether a call fails for reasons outside the model (network,
    credentials, permissions) is given by an explicit `Fault` argument: the
    exception the caller sees, or none. */
module ObjectStore {
  import opened Wrappers

  /** The exception kinds the clients tell apart: botocore's `ClientError`
      (an error response from the service), `NoCredentialsError`, and any
      other exception. */
  datatype StoreError = ClientError | NoCredentialsError | OtherError

  /** The exception a call raises regardless of the store's state, if any. */
  type Fault = Option<StoreError>

  /** Python truthiness of an optional string argument: `None` and `""` are falsy. */
  predicate Given(s: Option<string>)
  {
    s.Some? && s.value != ""
  }

  /** The outcome of a Python call: a returned value or a raised exception. */
  datatype Call<T> = Returned(value: T) | Raised(error: StoreError)

  /** A bucket's versioning status; a new bucket is unversioned. */
  datatype Versioning = Unversioned | Enabled | Suspended

  /** The content stored under a key: a `joblib` dump of an object, the bytes
      of a local file, or the bytes read from a stream. */
  datatype Blob<O> = Serialized(obj: O) | FileBody(path: string) | StreamBody(stream: O)

  datatype Bucket<O> = Bucket(versioning: Versioning, objects: map<string, Blob<O>>)

  type Buckets<O> = map<string, Bucket<O>>

  /** `list_buckets`: the names of all buckets. */
  function ListBucketsOp<O>(bs: Buckets<O>, fault: Fault): (r: Call<set<string>>)
    ensures r.Returned? <==> fault.None?
    ensures r.Returned? ==> forall name :: name in r.value <==> name in bs
  {
    if fault.Some? then Raised(fault.value) else Returned(bs.Keys)
  }

  /** `create_bucket`: a new, empty, unversioned bucket; a name in use is refused. */
  function CreateBucketOp<O>(bs: Buckets<O>, name: string, fault: Fault): (r: (Fault, Buckets<O>))
    ensures r.0.None? <==> fault.None? && name !in bs
    ensures fault.Some? ==> r.0 == fault
    ensures fault.None? && name in bs ==> r.0 == Some(ClientError)
    ensures r.0.Some? ==> r.1 == bs
    ensures r.0.None? ==> r.1.Keys == bs.Keys + {name}
    ensures r.0.None? ==> r.1[name] == Bucket(Unversioned, map[])
    ensures forall b :: b in bs ==> b in r.1 && r.1[b] == bs[b]
  {
    if fault.Some? then (fault, bs)
    else if name in bs then (Some(ClientError), bs)
    else (None, bs[name := Bucket(Unversioned, map[])])
  }

  /** `put_bucket_versioning`: sets the status of an existing bucket. */
  function PutVersioningOp<O>(bs: Buckets<O>, name: string, status: Versioning, fault: Fault)
    : (r: (Fault, Buckets<O>))
    ensures r.0.None? <==> fault.None? && name in bs
    ensures fault.Some? ==> r.0 == fault
    ensures fault.None? && name !in bs ==> r.0 == Some(ClientError)
    ensures r.1.Keys == bs.Keys
    ensures r.0.Some? ==> r.1 == bs
    ensures r.0.None? ==> r.1[name] == Bucket(status, bs[name].objects)
    ensures forall b :: b in bs && b != name ==> r.1[b] == bs[b]
  {
    if fault.Some? then (fault, bs)
    else if name !in bs then (Some(ClientError), bs)
    else (None, bs[name := bs[name].(versioning := status)])
  }

  /** `put_object` of `body` under `key`. The request is validated before it is
      sent: an empty key is refused with botocore's `ParamValidationError`,
      which is not a `ClientError`. A missing bucket is a `ClientError`. */
  function PutObjectOp<O>(bs: Buckets<O>, name: string, key: string, body: Blob<O>, fault: Fault)
    : (r: (Fault, Buckets<O>))
    ensures r.0.None? <==> key != "" && fault.None? && name in bs
    ensures r.0.Some? ==> r.1 == bs
    ensures r.0.Some? ==> r.0 == (if key == "" then Some(OtherError) else if fault.Some? then fault else Some(ClientError))
    ensures r.1.Keys == bs.Keys
    ensures r.0.None? ==> r.1[name].versioning == bs[name].versioning
    ensures r.0.None? ==> r.1[name].objects.Keys == bs[name].objects.Keys + {key}
    ensures r.0.None? ==> r.1[name].objects[key] == body
    ensures r.0.None? ==> forall k :: k in bs[name].objects && k != key ==> r.1[name].objects[k] == bs[name].objects[k]
    ensures forall b :: b in bs && b != name ==> r.1[b] == bs[b]
  {
    if key == "" then (Some(OtherError), bs)
    else if fault.Some? then (fault, bs)
    else if name !in bs then (Some(ClientError), bs)
    else (None, bs[name := bs[name].(objects := bs[name].objects[key := body])])
  }

  /** boto3's `upload_file` re-raises every `ClientError` of the transfer as
      `S3UploadFailedError`, which is not a `ClientError`; other exceptions
      pass unchanged. */
  function UploadFailed(err: Fault): Fault
  {
    if err == Some(ClientError) then Some(OtherError) else err
  }

  /** `upload_file`: `put_object` with the body read from a local file, as
      the caller of `upload_file` sees it. */
  function FileUploadOp<O>(bs: Buckets<O>, name: string, key: string, body: Blob<O>, fault: Fault)
    : (r: (Fault, Buckets<O>))
    ensures r.0 != Some(ClientError)
    ensures PutObjectOp(bs, name, key, body, fault).0 == Some(ClientError) ==> r.0 == Some(OtherError)
    ensures r.0.None? <==> PutObjectOp(bs, name, key, body, fault).0.None?
    ensures r.0.Some? && PutObjectOp(bs, name, key, body, fault).0 != Some(ClientError)
            ==> r.0 == PutObjectOp(bs, name, key, body, fault).0
    ensures r.1 == PutObjectOp(bs, name, key, body, fault).1
  {
    var put := PutObjectOp(bs, name, key, body, fault);
    (UploadFailed(put.0), put.1)
  }

  /** `get_object`: the content under `key`. An empty key is refused before the
      request with a `ParamValidationError`; a missing bucket or key is a `ClientError`. */
  function GetObjectOp<O>(bs: Buckets<O>, name: string, key: string, fault: Fault): (r: Call<Blob<O>>)
    ensures r.Returned? <==> key != "" && fault.None? && name in bs && key in bs[name].objects
    ensures r.Returned? ==> r.value == bs[name].objects[key]
    ensures key == "" ==> r == Raised(OtherError)
    ensures r.Raised? && key != "" && fault.None? ==> r.error == ClientError
  {
    if key == "" then Raised(OtherError)
    else if fault.Some? then Raised(fault.value)
    else if name !in bs || key !in bs[name].objects then Raised(ClientError)
    else Returned(bs[name].objects[key])
  }

  /** The service an S3 client talks to. */
  class Store<O> {
    var buckets: Buckets<O>

    constructor (initial: Buckets<O>)
      ensures buckets == initial
    {
      buckets := initial;
    }

    method ListBuckets(fault: Fault) returns (r: Call<set<string>>)
      ensures r == ListBucketsOp(buckets, fault)
    {
      if fault.Some? {
        return Raised(fault.value);
      }
      return Returned(buckets.Keys);
    }

    method CreateBucket(name: string, fault: Fault) returns (err: Fault)
      modifies this
      ensures (err, buckets) == CreateBucketOp(old(buckets), name, fault)
    {
      if fault.Some? {
        return fault;
      }
      if name in buckets {
        return Some(ClientError);
      }
      buckets := buckets[name := Bucket(Unversioned, map[])];
      return None;
    }

    method PutBucketVersioning(name: string, status: Versioning, fault: Fault) returns (err: Fault)
      modifies this
      ensures (err, buckets) == PutVersioningOp(old(buckets), name, status, fault)
    {
      if fault.Some? {
        return fault;
      }
      if name !in buckets {
        return Some(ClientError);
      }
      buckets := buckets[name := buckets[name].(versioning := status)];
      return None;
    }

    /** `upload_file`: the body is read from a local file. */
    method UploadFile(name: string, key: string, body: Blob<O>, fault: Fault) returns (err: Fault)
      modifies this
      ensures (err, buckets) == FileUploadOp(old(buckets), name, key, body, fault)
    {
      err := PutObject(name, key, body, fault);
      if err == Some(ClientError) {
        err := Some(OtherError);
      }
    }

    /** `upload_fileobj`: the body is read from a stream; the service's errors pass unchanged. */
    method UploadFileObj(name: string, key: string, body: Blob<O>, fault: Fault) returns (err: Fault)
      modifies this
      ensures (err, buckets) == PutObjectOp(old(buckets), name, key, body, fault)
    {
      err := PutObject(name, key, body, fault);
    }

    method PutObject(name: string, key: string, body: Blob<O>, fault: Fault) returns (err: Fault)
      modifies this
      ensures (err, buckets) == PutObjectOp(old(buckets), name, key, body, fault)
    {
      if key == "" {
        return Some(OtherError);
      }
      if fault.Some? {
        return fault;
      }
      if name !in buckets {
        return Some(ClientError);
      }
      var bucket := buckets[name];
      buckets := buckets[name := bucket.(objects := bucket.objects[key := body])];
      return None;
    }

    method GetObject(name: string, key: string, fault: Fault) returns (r: Call<Blob<O>>)
      ensures r == GetObjectOp(buckets, name, key, fault)
    {
      if key == "" {
        return Raised(OtherError);
      }
      if fault.Some? {
        return Raised(fault.value);
      }
      if name !in buckets || key !in buckets[name].objects {
        return Raised(ClientError);
      }
      return Returned(buckets[name].objects[key]);
    }
  }
}
