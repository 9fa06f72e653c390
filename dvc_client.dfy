/** `DVCClient`: a process-wide singleton around one boto3 S3 client that
    stores serialized Python objects. `save_data_to` makes sure the bucket
    exists (creating it with versioning enabled when it does not), then
    uploads the `joblib` dump of the object; `read_data_from` fetches and
    deserializes it. */
module Dvc {
  import opened Wrappers
  import opened ObjectStore

  /** `if not bucket_name: bucket_name = os.environ["S3_BUCKET_NAME"]`, with the
      environment value as a parameter. */
  function BucketOrDefault(bucketName: Option<string>, defaultBucket: string): string
  {
    if Given(bucketName) then bucketName.value else defaultBucket
  }

  /** The exceptions, if any, that the four service calls of one
      `save_data_to` raise regardless of the store's state. */
  datatype SaveFaults = SaveFaults(list: Fault, create: Fault, versioning: Fault, upload: Fault)

  /** `except (NoCredentialsError, ClientError): return False`; anything else propagates. */
  function Caught(e: StoreError): Call<bool>
  {
    if e == ClientError || e == NoCredentialsError then Returned(false) else Raised(e)
  }

  /** `create_bucket` followed by `put_bucket_versioning(Status="Enabled")`;
      the first failure stops the sequence. */
  function Provision<O>(bs: Buckets<O>, bucket: string, faults: SaveFaults): (r: (Fault, Buckets<O>))
    requires bucket !in bs
  {
    var created := CreateBucketOp(bs, bucket, faults.create);
    if created.0.Some? then created
    else PutVersioningOp(created.1, bucket, Enabled, faults.versioning)
  }

  /** `save_data_to` on a store in state `bs`, for the bucket already resolved:
      the result and the new state. Nothing is rolled back on failure. */
  function SaveOp<O>(bs: Buckets<O>, obj: O, destination: string, bucket: string, faults: SaveFaults)
    : (Call<bool>, Buckets<O>)
  {
    match ListBucketsOp(bs, faults.list)
    case Raised(e) => (Caught(e), bs)
    case Returned(names) =>
      var ready := if bucket in names then (None, bs) else Provision(bs, bucket, faults);
      if ready.0.Some? then (Caught(ready.0.value), ready.1)
      else
        var put := FileUploadOp(ready.1, bucket, destination, Serialized(obj), faults.upload);
        if put.0.Some? then (Caught(put.0.value), put.1) else (Returned(true), put.1)
  }

  /** `read_data_from` on a store in state `bs`: the deserialized object, `None`
      on a `ClientError` (missing bucket or key included), and an exception
      for anything else, including content that is not a `joblib` dump. */
  function ReadOp<O>(bs: Buckets<O>, source: string, bucket: string, fault: Fault): Call<Option<O>>
  {
    match GetObjectOp(bs, bucket, source, fault)
    case Raised(ClientError) => Returned(None)
    case Raised(e) => Raised(e)
    case Returned(Serialized(o)) => Returned(Some(o))
    case Returned(_) => Raised(OtherError)
  }

  /** Saving into a bucket that does not exist creates it with versioning
      enabled, holding just the new object, and touches no other bucket. An
      empty `destination` is refused only at the upload, after the bucket was
      made. */
  lemma SaveProvisionsMissingBucket<O>(bs: Buckets<O>, obj: O, destination: string, bucket: string)
    requires bucket !in bs
    ensures SaveOp(bs, obj, destination, bucket, SaveFaults(None, None, None, None))
         == if destination == "" then (Raised(OtherError), bs[bucket := Bucket(Enabled, map[])])
            else (Returned(true), bs[bucket := Bucket(Enabled, map[destination := Serialized(obj)])])
  {
    var faults := SaveFaults(None, None, None, None);
    var created := bs[bucket := Bucket(Unversioned, map[])];
    var ready := created[bucket := Bucket(Enabled, map[])];
    assert Provision(bs, bucket, faults) == (None, ready);
    assert ListBucketsOp(bs, faults.list) == Returned(bs.Keys);
    assert ready == bs[bucket := Bucket(Enabled, map[])];
    if destination != "" {
      var after := ready[bucket := Bucket(Enabled, map[destination := Serialized(obj)])];
      assert PutObjectOp(ready, bucket, destination, Serialized(obj), faults.upload) == (None, after);
      assert after == bs[bucket := Bucket(Enabled, map[destination := Serialized(obj)])];
    }
  }

  /** Saving into an existing bucket creates nothing and keeps its versioning
      status, whatever it is: only the object under `destination` changes, and
      an empty `destination` changes nothing. */
  lemma SaveKeepsExistingBucket<O>(bs: Buckets<O>, obj: O, destination: string, bucket: string,
                                   faults: SaveFaults)
    requires bucket in bs && faults.list.None? && faults.upload.None?
    ensures SaveOp(bs, obj, destination, bucket, faults)
         == if destination == "" then (Raised(OtherError), bs)
            else (Returned(true),
                  bs[bucket := Bucket(bs[bucket].versioning, bs[bucket].objects[destination := Serialized(obj)])])
  {
  }

  /** `True` exactly when every service call that is reached succeeds. */
  lemma SaveSucceedsIff<O>(bs: Buckets<O>, obj: O, destination: string, bucket: string, faults: SaveFaults)
    ensures SaveOp(bs, obj, destination, bucket, faults).0 == Returned(true) <==>
      && faults.list.None?
      && (bucket in bs || (faults.create.None? && faults.versioning.None?))
      && destination != ""
      && faults.upload.None?
  {
  }

  /** The only exception that escapes `save_data_to` is one that is neither a
      `ClientError` nor a `NoCredentialsError`; those two yield `False` from
      the listing and the bucket set-up. From the upload, boto3 re-raises a
      `ClientError` as an exception that is not one, so it escapes. */
  lemma SaveErrorMapping<O>(bs: Buckets<O>, obj: O, destination: string, bucket: string, faults: SaveFaults)
    ensures SaveOp(bs, obj, destination, bucket, faults).0.Raised? ==>
      SaveOp(bs, obj, destination, bucket, faults).0.error == OtherError
    ensures faults.list.Some? ==>
      SaveOp(bs, obj, destination, bucket, faults) == (Caught(faults.list.value), bs)
    ensures faults.list.None? && bucket !in bs && faults.create.Some? ==>
      SaveOp(bs, obj, destination, bucket, faults) == (Caught(faults.create.value), bs)
    ensures faults.list.None? && bucket !in bs && faults.create.None? && faults.versioning.Some? ==>
      SaveOp(bs, obj, destination, bucket, faults)
        == (Caught(faults.versioning.value), bs[bucket := Bucket(Unversioned, map[])])
    ensures faults.list.None? && (bucket in bs || (faults.create.None? && faults.versioning.None?))
            && destination != "" && faults.upload.Some? ==>
      SaveOp(bs, obj, destination, bucket, faults).0
        == if faults.upload == Some(NoCredentialsError) then Returned(false) else Raised(OtherError)
  {
  }

  /** A failed save leaves every existing bucket as it was; it may leave behind
      the target bucket it created, empty, with versioning enabled or not. */
  lemma SaveFailureFrame<O>(bs: Buckets<O>, obj: O, destination: string, bucket: string, faults: SaveFaults)
    ensures var (r, after) := SaveOp(bs, obj, destination, bucket, faults);
      r != Returned(true) ==>
        && (forall b :: b in bs ==> b in after && after[b] == bs[b])
        && after.Keys <= bs.Keys + {bucket}
        && (bucket !in bs && bucket in after ==> after[bucket].objects == map[])
  {
  }

  /** A failed `put_bucket_versioning` right after `create_bucket` leaves an
      unversioned bucket behind, and a later save does not repair it. */
  lemma SaveLeavesUnversionedBucket<O>(bs: Buckets<O>, obj: O, destination: string, bucket: string,
                                       e: StoreError)
    requires bucket !in bs
    ensures var first := SaveOp(bs, obj, destination, bucket, SaveFaults(None, None, Some(e), None));
      && first.1 == bs[bucket := Bucket(Unversioned, map[])]
      && SaveOp(first.1, obj, destination, bucket, SaveFaults(None, None, None, None)).1[bucket].versioning
           == Unversioned
  {
  }

  /** What `read_data_from` returns, case by case. */
  lemma ReadSpec<O>(bs: Buckets<O>, source: string, bucket: string, fault: Fault)
    ensures var r := ReadOp(bs, source, bucket, fault);
      && (r.Returned? && r.value.Some? <==>
            source != "" && fault.None? && bucket in bs && source in bs[bucket].objects
            && bs[bucket].objects[source].Serialized?)
      && (r.Returned? && r.value.Some? ==> r.value.value == bs[bucket].objects[source].obj)
      && (r == Returned(None) <==>
            source != ""
            && (fault == Some(ClientError) || (fault.None? && (bucket !in bs || source !in bs[bucket].objects))))
      && (source == "" ==> r == Raised(OtherError))
      && (r.Raised? ==> r.error != ClientError)
  {
  }

  /** A successful save is read back: the object stored under `destination`
      is the one saved, whatever the bucket held before. */
  lemma SaveThenRead<O>(bs: Buckets<O>, obj: O, destination: string, bucket: string, faults: SaveFaults)
    requires SaveOp(bs, obj, destination, bucket, faults).0 == Returned(true)
    ensures ReadOp(SaveOp(bs, obj, destination, bucket, faults).1, destination, bucket, None)
         == Returned(Some(obj))
  {
  }

  /** Saving under one key leaves what is read under every other key unchanged. */
  lemma SaveKeepsOtherKeys<O>(bs: Buckets<O>, obj: O, destination: string, bucket: string,
                              faults: SaveFaults, source: string, other: string, fault: Fault)
    requires source != destination || other != bucket
    ensures ReadOp(SaveOp(bs, obj, destination, bucket, faults).1, source, other, fault)
         == ReadOp(bs, source, other, fault)
  {
  }

  /** The client object; `client` is the boto3 client `__init__` creates. */
  class DVCClient<O> {
    var client: Store<O>

    /** The first construction: a new object, then `__init__`. */
    constructor (service: Store<O>)
      ensures client == service
    {
      client := service;
    }

    /** `__init__` on an existing object: rebinds the boto3 client. */
    method Init(service: Store<O>)
      modifies this
      ensures client == service
    {
      client := service;
    }

    /** `read_data_from`; `defaultBucket` is the `S3_BUCKET_NAME` setting. */
    method ReadDataFrom(source: string, bucketName: Option<string>, defaultBucket: string, fault: Fault)
      returns (r: Call<Option<O>>)
      ensures r == ReadOp(client.buckets, source, BucketOrDefault(bucketName, defaultBucket), fault)
    {
      var bucket := if Given(bucketName) then bucketName.value else defaultBucket;
      var response := client.GetObject(bucket, source, fault);
      match response
      case Raised(ClientError) => return Returned(None);
      case Raised(e) => return Raised(e);
      case Returned(Serialized(o)) => return Returned(Some(o));
      case Returned(_) => return Raised(OtherError);
    }

    /** `save_data_to`; `extraArgs` is accepted but, as in the client, not passed on. */
    method SaveDataTo(obj: O, destination: string, bucketName: Option<string>, extraArgs: map<string, string>,
                      defaultBucket: string, faults: SaveFaults) returns (r: Call<bool>)
      modifies client
      ensures (r, client.buckets)
           == SaveOp(old(client.buckets), obj, destination, BucketOrDefault(bucketName, defaultBucket), faults)
    {
      var bucket := if Given(bucketName) then bucketName.value else defaultBucket;
      var listed := client.ListBuckets(faults.list);
      if listed.Raised? {
        return Caught(listed.error);
      }
      if bucket !in listed.value {
        var err := client.CreateBucket(bucket, faults.create);
        if err.Some? {
          return Caught(err.value);
        }
        err := client.PutBucketVersioning(bucket, Enabled, faults.versioning);
        if err.Some? {
          return Caught(err.value);
        }
      }
      var err := client.UploadFile(bucket, destination, Serialized(obj), faults.upload);
      if err.Some? {
        return Caught(err.value);
      }
      return Returned(true);
    }
  }

  /** The class object `DVCClient` with its `_instance` attribute. */
  class DVCClientClass<O> {
    var instance: DVCClient?<O>

    constructor ()
      ensures instance == null
    {
      instance := null;
    }

    /** `DVCClient()`: `__new__` returns the existing instance or makes the
        first one, then `__init__` runs on it. */
    method New(service: Store<O>) returns (c: DVCClient<O>)
      modifies this, instance
      ensures old(instance) != null ==> c == old(instance)
      ensures old(instance) == null ==> fresh(c)
      ensures instance == c && c.client == service
    {
      if instance == null {
        instance := new DVCClient<O>(service);
      } else {
        instance.Init(service);
      }
      c := instance;
    }
  }

  /** Two constructions, as two modules of the service would make them, share
      one client; what one saves, the other reads back. */
  method SaveThroughOneReadThroughOther<O>(cls: DVCClientClass<O>, service: Store<O>, obj: O,
                                           destination: string, bucket: string)
    returns (writer: DVCClient<O>, reader: DVCClient<O>, saved: Call<bool>, read: Call<Option<O>>)
    modifies cls, cls.instance, service
    ensures writer == reader && cls.instance == writer
    ensures saved == Returned(true) ==> read == Returned(Some(obj))
  {
    writer := cls.New(service);
    reader := cls.New(service);
    saved := writer.SaveDataTo(obj, destination, Some(bucket), map[], bucket, SaveFaults(None, None, None, None));
    read := reader.ReadDataFrom(destination, None, bucket, None);
    if saved == Returned(true) {
      SaveThenRead(old(service.buckets), obj, destination, bucket, SaveFaults(None, None, None, None));
    }
  }
}
