/** MinioService: per-company buckets in an S3-compatible backend. The backend is
    modelled by its state, a map from bucket name to bucket, and by `fault`, the
    error every request fails with while the backend cannot be used. */
module Storage {
  import opened Common

  datatype StoredObject = StoredObject(contentType: string, content: seq<bv8>)

  /** The uploaded multipart file: its original name, its content type and its bytes. */
  datatype MultipartFile = MultipartFile(originalFilename: string, contentType: string, content: seq<bv8>)

  /** A bucket: the policy document set on it and its objects by name. */
  datatype Bucket = Bucket(policy: string, objects: map<string, StoredObject>)

  /** Name of the bucket holding a company's logo: a fixed prefix, then the id. The
      controller builds it; it sits here because the storage lemmas speak of it too. */
  function LogoBucket(companyId: Uuid): (name: string)
    ensures |name| == 5 + |companyId| && name[..5] == "logo-" && name[5..] == companyId
  {
    "logo-" + companyId
  }

  /** Name of the bucket holding a company's documents: a fixed prefix, then the id. The
      controller builds it (on upload and on delete); it sits here because the
      storage lemmas speak of it too. */
  function DocumentsBucket(companyId: Uuid): (name: string)
    ensures |name| == 10 + |companyId| && name[..10] == "documents-" && name[10..] == companyId
  {
    "documents-" + companyId
  }

  /** Every company has buckets of its own: no logo bucket is a documents bucket, and each
      name belongs to one company only. */
  lemma BucketNamesSeparate(a: Uuid, b: Uuid)
    ensures LogoBucket(a) != DocumentsBucket(b)
    ensures LogoBucket(a) == LogoBucket(b) ==> a == b
    ensures DocumentsBucket(a) == DocumentsBucket(b) ==> a == b
  {
    assert LogoBucket(a)[0] == 'l' && DocumentsBucket(b)[0] == 'd';
  }

  // ---------------------------------------------------------------------------
  // Bucket policy documents (AWS IAM policy language, version 2012-10-17)
  // ---------------------------------------------------------------------------

  /** Principal of the public policy: anyone. */
  const PUBLIC_PRINCIPAL: string := "\"*\""

  /** Principal of the private policy: only the service's own account. */
  const PRIVATE_PRINCIPAL: string :=
    "{\n" +
    "                \"AWS\": \"arn:aws:iam::company:root\"\n" +
    "            }"

  /** The document up to its first statement. */
  const POLICY_OPEN: string :=
    "{\n" +
    "    \"Statement\": [\n" +
    "        {\n"

  /** The first statement up to its principal. */
  const LISTING_GRANT_HEAD: string :=
    "            \"Action\": [\n" +
    "                \"s3:GetBucketLocation\",\n" +
    "                \"s3:ListBucket\"\n" +
    "            ],\n" +
    "            \"Effect\": \"Allow\",\n" +
    "            \"Principal\": "

  /** From a principal to the bucket name in the resource ARN that follows it. */
  const RESOURCE_PREFIX: string :=
    ",\n" +
    "            \"Resource\": \"arn:aws:s3:::"

  /** Between the two statements. */
  const STATEMENT_SEPARATOR: string :=
    "\n" +
    "        },\n" +
    "        {\n"

  /** The second statement up to its principal. */
  const OBJECT_GRANT_HEAD: string :=
    "            \"Action\": \"s3:GetObject\",\n" +
    "            \"Effect\": \"Allow\",\n" +
    "            \"Principal\": "

  /** The document after its second statement. */
  const POLICY_CLOSE: string :=
    "\n" +
    "        }\n" +
    "    ],\n" +
    "    \"Version\": \"2012-10-17\"\n" +
    "}"

  /** The first statement: allows s3:GetBucketLocation and s3:ListBucket to `principal`
      on the bucket itself, arn:aws:s3:::<bucketName>. */
  function ListingGrant(principal: string, bucketName: string): string {
    LISTING_GRANT_HEAD + principal + RESOURCE_PREFIX + bucketName + "\""
  }

  /** The second statement: allows s3:GetObject to `principal` on every object of the
      bucket: the bucket's ARN followed by a slash and a wildcard. */
  function ObjectGrant(principal: string, bucketName: string): string {
    OBJECT_GRANT_HEAD + principal + RESOURCE_PREFIX + bucketName + "/*\""
  }

  /** The policy document of createPublicBucket and createPrivateBucket, which differ only
      in the principal of the two statements. */
  function BucketPolicy(principal: string, bucketName: string): string {
    var rest := STATEMENT_SEPARATOR + ObjectGrant(principal, bucketName) + POLICY_CLOSE;
    POLICY_OPEN + ListingGrant(principal, bucketName) + rest
  }

  /** `piece` occurs somewhere in `text`. */
  ghost predicate Contains(text: string, piece: string) {
    exists i :: 0 <= i <= |text| - |piece| && text[i..][..|piece|] == piece
  }

  /** The configuration createPublicBucket sets: anyone may list the bucket and read
      every object in it. */
  function PublicPolicy(bucketName: string): (config: string)
    ensures IsPublicPolicy(config) && PolicyBucket(config) == bucketName
    ensures Contains(config, ListingGrant(PUBLIC_PRINCIPAL, bucketName))
    ensures Contains(config, ObjectGrant(PUBLIC_PRINCIPAL, bucketName))
  {
    assert PUBLIC_PRINCIPAL[0] == '"';
    BucketPolicyReadBack(PUBLIC_PRINCIPAL, bucketName);
    BucketPolicyGrants(PUBLIC_PRINCIPAL, bucketName);
    BucketPolicy(PUBLIC_PRINCIPAL, bucketName)
  }

  /** The configuration createPrivateBucket sets: only the service's account
      arn:aws:iam::company:root may list the bucket and read the objects in it. */
  function PrivatePolicy(bucketName: string): (config: string)
    ensures !IsPublicPolicy(config) && PolicyBucket(config) == bucketName
    ensures Contains(config, ListingGrant(PRIVATE_PRINCIPAL, bucketName))
    ensures Contains(config, ObjectGrant(PRIVATE_PRINCIPAL, bucketName))
  {
    assert PRIVATE_PRINCIPAL[0] == '{';
    BucketPolicyReadBack(PRIVATE_PRINCIPAL, bucketName);
    BucketPolicyGrants(PRIVATE_PRINCIPAL, bucketName);
    BucketPolicy(PRIVATE_PRINCIPAL, bucketName)
  }

  function PolicyFor(bucketName: string, isPublic: bool): string {
    if isPublic then PublicPolicy(bucketName) else PrivatePolicy(bucketName)
  }

  /** Where the principal of the first statement starts. */
  const PRINCIPAL_AT: nat := |POLICY_OPEN| + |LISTING_GRANT_HEAD|

  /** Length of a policy document apart from its two principals and its two bucket names. */
  const FIXED_LENGTH: nat := |POLICY_OPEN| + |LISTING_GRANT_HEAD| + |STATEMENT_SEPARATOR| + |OBJECT_GRANT_HEAD|
                             + |POLICY_CLOSE| + 2 * |RESOURCE_PREFIX| + |"\""| + |"/*\""|

  /** Reads the visibility back from a policy document: the public principal is a JSON
      string, the private one a JSON object. */
  function IsPublicPolicy(config: string): bool {
    |config| > PRINCIPAL_AT && config[PRINCIPAL_AT] == '"'
  }

  /** Reads the bucket name back from the first resource ARN of a policy document of
      either visibility. */
  function PolicyBucket(config: string): string {
    ReadBucket(config, if IsPublicPolicy(config) then |PUBLIC_PRINCIPAL| else |PRIVATE_PRINCIPAL|)
  }

  /** The first bucket name of a policy document whose principals are `principalLength`
      characters long: what is left of the length once the fixed parts and the principals
      are taken away is twice the bucket name's length. */
  function ReadBucket(config: string, principalLength: nat): string {
    var start := PRINCIPAL_AT + principalLength + |RESOURCE_PREFIX|;
    var length := (|config| - FIXED_LENGTH - 2 * principalLength) / 2;
    if 0 <= length && start + length <= |config| then config[start..start + length] else ""
  }

  /** Where the parts of a document laid out as an opening, a statement (head, principal,
      prefix, bucket name, closing) and the rest sit. */
  lemma PolicyLayout(open: string, head: string, principal: string, prefix: string, bucketName: string,
                     close: string, rest: string)
    requires principal != []
    ensures var config := open + (head + principal + prefix + bucketName + close) + rest;
      && |config| == |open| + |head| + |principal| + |prefix| + |bucketName| + |close| + |rest|
      && config[|open| + |head|] == principal[0]
      && config[|open| + |head| + |principal| + |prefix|..|open| + |head| + |principal| + |prefix| + |bucketName|] == bucketName
  {
    var statement := head + principal + prefix + bucketName + close;
    var config := open + statement + rest;
    var start := |open| + |head| + |principal| + |prefix|;
    assert config[|open|..|open| + |statement|] == statement;
    assert statement[..|head| + |principal| + |prefix|] == head + principal + prefix;
    assert config[start..start + |bucketName|] == statement[start - |open|..start - |open| + |bucketName|];
    assert statement[start - |open|..start - |open| + |bucketName|] == bucketName;
  }

  /** For any principal, the readers find it and the bucket name in a policy document. */
  lemma BucketPolicyReadBack(principal: string, bucketName: string)
    requires principal != []
    ensures var config := BucketPolicy(principal, bucketName);
      && |config| > PRINCIPAL_AT && config[PRINCIPAL_AT] == principal[0]
      && ReadBucket(config, |principal|) == bucketName
  {
    var rest := STATEMENT_SEPARATOR + ObjectGrant(principal, bucketName) + POLICY_CLOSE;
    assert |rest| == |STATEMENT_SEPARATOR| + |OBJECT_GRANT_HEAD| + |principal| + |RESOURCE_PREFIX| + |bucketName|
                     + |"/*\""| + |POLICY_CLOSE|;
    PolicyLayout(POLICY_OPEN, LISTING_GRANT_HEAD, principal, RESOURCE_PREFIX, bucketName, "\"", rest);
  }

  /** For any principal, a policy document holds both statements. */
  lemma BucketPolicyGrants(principal: string, bucketName: string)
    ensures Contains(BucketPolicy(principal, bucketName), ListingGrant(principal, bucketName))
    ensures Contains(BucketPolicy(principal, bucketName), ObjectGrant(principal, bucketName))
  {
    var rest := STATEMENT_SEPARATOR + ObjectGrant(principal, bucketName) + POLICY_CLOSE;
    ContainsMiddle(POLICY_OPEN, ListingGrant(principal, bucketName), rest);
    ContainsAfter(POLICY_OPEN + ListingGrant(principal, bucketName), STATEMENT_SEPARATOR,
                  ObjectGrant(principal, bucketName), POLICY_CLOSE);
  }

  /** A piece laid down between two others occurs in the whole. */
  lemma ContainsMiddle(a: string, piece: string, c: string)
    ensures Contains(a + piece + c, piece)
  {
    assert (a + piece + c)[|a|..][..|piece|] == piece;
  }

  /** A piece laid down after two others occurs in the whole. */
  lemma ContainsAfter(a: string, b: string, piece: string, c: string)
    ensures Contains(a + (b + piece + c), piece)
  {
    var text := a + (b + piece + c);
    var i := |a| + |b|;
    assert (b + piece + c)[|b|..|b| + |piece|] == piece;
    assert text[i..][..|piece|] == (b + piece + c)[|b|..|b| + |piece|];
  }

  /** A bucket's policy document records the visibility and the bucket it was made for:
      the two readers above invert PolicyFor. */
  lemma PolicyForRoundTrip(bucketName: string, isPublic: bool)
    ensures IsPublicPolicy(PolicyFor(bucketName, isPublic)) == isPublic
    ensures PolicyBucket(PolicyFor(bucketName, isPublic)) == bucketName
  {
  }

  /** Different buckets, or different visibilities, never share a policy document. */
  lemma PolicyForInjective(b1: string, p1: bool, b2: string, p2: bool)
    requires PolicyFor(b1, p1) == PolicyFor(b2, p2)
    ensures b1 == b2 && p1 == p2
  {
    PolicyForRoundTrip(b1, p1);
    PolicyForRoundTrip(b2, p2);
  }

  // ---------------------------------------------------------------------------
  // The backend state after each successful operation
  // ---------------------------------------------------------------------------

  /** The state after createBucketIfNotExists: an existing bucket is left as it is. */
  function WithBucket(buckets: map<string, Bucket>, bucketName: string, isPublic: bool): map<string, Bucket> {
    if bucketName in buckets then buckets else buckets[bucketName := Bucket(PolicyFor(bucketName, isPublic), map[])]
  }

  /** The state after putObject into an existing bucket: the object is stored under its
      name, replacing any earlier one. */
  function WithObject(buckets: map<string, Bucket>, bucketName: string, objectName: string, stored: StoredObject): map<string, Bucket>
    requires bucketName in buckets
  {
    buckets[bucketName := buckets[bucketName].(objects := buckets[bucketName].objects[objectName := stored])]
  }

  /** The state after removeObject from an existing bucket. */
  function WithoutObject(buckets: map<string, Bucket>, bucketName: string, objectName: string): map<string, Bucket>
    requires bucketName in buckets
  {
    buckets[bucketName := buckets[bucketName].(objects := buckets[bucketName].objects - {objectName})]
  }

  /** The state after uploadFile. */
  function Uploaded(buckets: map<string, Bucket>, bucketName: string, objectName: string, file: MultipartFile, isPublicFile: bool): map<string, Bucket> {
    WithObject(WithBucket(buckets, bucketName, isPublicFile), bucketName, objectName, StoredObject(file.contentType, file.content))
  }

  /** statObject succeeds. */
  predicate ObjectExists(buckets: map<string, Bucket>, bucketName: string, objectName: string) {
    bucketName in buckets && objectName in buckets[bucketName].objects
  }

  /** Ensuring a bucket twice is ensuring it once, whatever visibility the second call asks for. */
  lemma WithBucketIdempotent(buckets: map<string, Bucket>, bucketName: string, isPublic: bool, again: bool)
    ensures WithBucket(WithBucket(buckets, bucketName, isPublic), bucketName, again) == WithBucket(buckets, bucketName, isPublic)
  {
  }

  /** A bucket gets its policy when it is created and keeps it through every upload and
      removal; only a missing bucket is created, with the policy its visibility selects. */
  lemma UploadKeepsPolicies(buckets: map<string, Bucket>, bucketName: string, objectName: string, file: MultipartFile, isPublicFile: bool)
    ensures var after := Uploaded(buckets, bucketName, objectName, file, isPublicFile);
      && after.Keys == buckets.Keys + {bucketName}
      && (forall b :: b in buckets ==> after[b].policy == buckets[b].policy)
      && (bucketName !in buckets ==> after[bucketName].policy == PolicyFor(bucketName, isPublicFile))
      && IsPublicPolicy(after[bucketName].policy) == (if bucketName in buckets then IsPublicPolicy(buckets[bucketName].policy) else isPublicFile)
  {
    PolicyForRoundTrip(bucketName, isPublicFile);
  }

  /** An upload stores exactly the named object: the other objects of that bucket and the
      other buckets are unchanged. */
  lemma UploadStoresOnlyThatObject(buckets: map<string, Bucket>, bucketName: string, objectName: string, file: MultipartFile, isPublicFile: bool)
    ensures var after := Uploaded(buckets, bucketName, objectName, file, isPublicFile);
      && after[bucketName].objects[objectName] == StoredObject(file.contentType, file.content)
      && (forall b :: b in buckets && b != bucketName ==> after[b] == buckets[b])
      && after[bucketName].objects
           == (if bucketName in buckets then buckets[bucketName].objects else map[])[objectName := StoredObject(file.contentType, file.content)]
  {
  }

  /** Uploading an object and then removing it leaves the bucket's objects as they were
      when no object of that name was there before. */
  lemma UploadThenRemove(buckets: map<string, Bucket>, bucketName: string, objectName: string, file: MultipartFile, isPublicFile: bool)
    requires !ObjectExists(buckets, bucketName, objectName)
    ensures var after := WithoutObject(Uploaded(buckets, bucketName, objectName, file, isPublicFile), bucketName, objectName);
      && !ObjectExists(after, bucketName, objectName)
      && (bucketName in buckets ==> after == buckets)
  {
    var after := WithoutObject(Uploaded(buckets, bucketName, objectName, file, isPublicFile), bucketName, objectName);
    if bucketName in buckets {
      assert after[bucketName].objects == buckets[bucketName].objects;
    }
  }

  /** Removing an object leaves none of that name; removing one that is not there
      changes nothing. */
  lemma RemoveAbsent(buckets: map<string, Bucket>, bucketName: string, objectName: string)
    requires bucketName in buckets
    ensures !ObjectExists(WithoutObject(buckets, bucketName, objectName), bucketName, objectName)
    ensures !ObjectExists(buckets, bucketName, objectName) ==> WithoutObject(buckets, bucketName, objectName) == buckets
  {
    if !ObjectExists(buckets, bucketName, objectName) {
      assert buckets[bucketName].(objects := buckets[bucketName].objects - {objectName}) == buckets[bucketName];
    }
  }

  // ---------------------------------------------------------------------------
  // The service
  // ---------------------------------------------------------------------------

  /** The policy of a bucket between makeBucket and setBucketPolicy. With the all-or-nothing
      `fault`, no caller observes a bucket left in this state; the backend's "bucket made,
      policy never set" outcome, which createBucketIfNotExists would never repair, is not
      modelled. */
  const NO_POLICY: string := ""

  class MinioService {
    /** The backend's buckets, by name. */
    var buckets: map<string, Bucket>
    /** Some(e) while the backend cannot be used: every request fails with e. */
    const fault: Option<Failure>

    constructor(initial: map<string, Bucket>, fault: Option<Failure>)
      requires fault.Some? ==> fault.value.IsStorageFault()
      ensures buckets == initial && this.fault == fault
    {
      buckets := initial;
      this.fault := fault;
    }

    /** minioClient.bucketExists. */
    method BucketExists(bucketName: string) returns (r: Result<bool>)
      ensures fault.Some? ==> r == Err(fault.value)
      ensures fault.None? ==> r == Ok(bucketName in buckets)
    {
      if fault.Some? {
        return Err(fault.value);
      }
      r := Ok(bucketName in buckets);
    }

    /** createBucket: makeBucket, then setBucketPolicy with `config`. Making a bucket
        that already exists is an error response of the backend. */
    method CreateBucket(bucketName: string, config: string) returns (err: Option<Failure>)
      modifies this
      ensures fault.Some? ==> err == fault && buckets == old(buckets)
      ensures fault.None? && bucketName in old(buckets) ==> err == Some(MinioFailure) && buckets == old(buckets)
      ensures fault.None? && bucketName !in old(buckets) ==>
                err == None && buckets == old(buckets)[bucketName := Bucket(config, map[])]
    {
      // makeBucket
      if fault.Some? {
        return fault;
      }
      if bucketName in buckets {
        return Some(MinioFailure);
      }
      buckets := buckets[bucketName := Bucket(NO_POLICY, map[])];
      // setBucketPolicy
      buckets := buckets[bucketName := buckets[bucketName].(policy := config)];
      err := None;
    }

    /** createBucketIfNotExists: creates the bucket, public or private as `isPublic`
        says, only when it is missing. */
    method CreateBucketIfNotExists(bucketName: string, isPublic: bool) returns (err: Option<Failure>)
      modifies this
      ensures fault.Some? ==> err == fault && buckets == old(buckets)
      ensures fault.None? ==> err == None && buckets == WithBucket(old(buckets), bucketName, isPublic)
    {
      var found := BucketExists(bucketName);
      if found.Err? {
        return Some(found.error);
      }
      err := None;
      if !found.value {
        if isPublic {
          err := CreateBucket(bucketName, PublicPolicy(bucketName));
        } else {
          err := CreateBucket(bucketName, PrivatePolicy(bucketName));
        }
      }
    }

    /** uploadFile: ensures the bucket, then puts the file under `objectName`. */
    method UploadFile(bucketName: string, objectName: string, file: MultipartFile, isPublicFile: bool)
      returns (err: Option<Failure>)
      modifies this
      ensures fault.Some? ==> err == fault && buckets == old(buckets)
      ensures fault.None? ==> err == None && buckets == Uploaded(old(buckets), bucketName, objectName, file, isPublicFile)
    {
      err := CreateBucketIfNotExists(bucketName, isPublicFile);
      if err.Some? {
        return;
      }
      // putObject
      buckets := WithObject(buckets, bucketName, objectName, StoredObject(file.contentType, file.content));
    }

    /** deleteFileFromPrivateBucket: removeObject. Removing a missing object succeeds;
        removing from a missing bucket is an error response. */
    method DeleteFileFromPrivateBucket(bucketName: string, objectName: string) returns (err: Option<Failure>)
      modifies this
      ensures fault.Some? ==> err == fault && buckets == old(buckets)
      ensures fault.None? && bucketName !in old(buckets) ==> err == Some(MinioFailure) && buckets == old(buckets)
      ensures fault.None? && bucketName in old(buckets) ==>
                err == None && buckets == WithoutObject(old(buckets), bucketName, objectName)
    {
      if fault.Some? {
        return fault;
      }
      if bucketName !in buckets {
        return Some(MinioFailure);
      }
      buckets := WithoutObject(buckets, bucketName, objectName);
      err := None;
    }

    /** documentExistsAndBelongsToCompany, as written: stats the object in the bucket
        named by the bare company id; every failure reads as false, nothing is thrown. */
    function DocumentExistsAndBelongsToCompany(companyId: Uuid, objectName: string): (found: bool)
      reads this
      ensures found <==> fault.None? && companyId in buckets && objectName in buckets[companyId].objects
    {
      fault.None? && ObjectExists(buckets, companyId, objectName)
    }

    /** The check as intended: stats the object in the company's documents bucket,
        the bucket the documents are uploaded to and deleted from. */
    function DocumentExistsInDocumentsBucket(companyId: Uuid, objectName: string): (found: bool)
      reads this
      ensures found <==> fault.None? && DocumentsBucket(companyId) in buckets
                         && objectName in buckets[DocumentsBucket(companyId)].objects
    {
      fault.None? && ObjectExists(buckets, DocumentsBucket(companyId), objectName)
    }
  }

  /** The check as written misses a stored document: with the document in
      "documents-<id>" and no bucket named by the bare id, it answers false. */
  lemma DocumentCheckLooksInWrongBucket(m: MinioService, companyId: Uuid, objectName: string)
    requires m.fault.None?
    requires ObjectExists(m.buckets, DocumentsBucket(companyId), objectName)
    requires companyId !in m.buckets
    ensures !m.DocumentExistsAndBelongsToCompany(companyId, objectName)
    ensures m.DocumentExistsInDocumentsBucket(companyId, objectName)
  {
  }

  /** The corrected check sees every upload into a company's documents bucket, and
      nothing once the object has been removed. */
  lemma DocumentsBucketCheckTracksUploads(buckets: map<string, Bucket>, companyId: Uuid, objectName: string, file: MultipartFile)
    ensures ObjectExists(Uploaded(buckets, DocumentsBucket(companyId), objectName, file, false), DocumentsBucket(companyId), objectName)
    ensures var b := DocumentsBucket(companyId);
      b in buckets ==> !ObjectExists(WithoutObject(buckets, b, objectName), b, objectName)
  {
  }
}
