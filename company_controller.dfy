/** CompanyController: the handlers that keep a company's logo URL and document list in
    step with the objects stored for it. Each handler loads the record, calls the
    storage service, edits the loaded record and writes it back through updateCompany. */
module Api {
  import opened Common
  import opened Storage
  import opened Companies

  /** What a handler answers: a status (200 carries the body `true`, the error statuses
      carry no body), or an exception that no catch clause of the handler covers. */
  datatype Reply = Reply(status: int) | Thrown(failure: Failure)

  /** A status that reaches a handler as HttpClientErrorException: the services wrap
      every status other than 200 in it, and only a 5xx answer surfaces as
      HttpServerErrorException instead. */
  predicate IsClientErrorStatus(status: int) {
    !(500 <= status < 600)
  }

  /** The catch clauses of changeCompanyLogo and addCompanyDocument. Only the
      HttpClientErrorException flavour of an HTTP error is caught. */
  function UploadErrorReply(failure: Failure): (reply: Reply)
    ensures failure == NotFound <==> reply == Reply(HTTP_NOT_FOUND)
    ensures failure == MinioFailure <==> reply == Reply(HTTP_INTERNAL_SERVER_ERROR)
    ensures (failure.HttpError? && IsClientErrorStatus(failure.status)) || failure == IoFailure
              || failure == NoSuchAlgorithm || failure == InvalidKey
        <==> reply == Reply(HTTP_BAD_REQUEST)
    ensures (failure.HttpError? && !IsClientErrorStatus(failure.status)) || failure == MalformedAuthorization
              || failure == InvalidToken
        <==> reply == Thrown(failure)
  {
    match failure
    case HttpError(status) => if IsClientErrorStatus(status) then Reply(HTTP_BAD_REQUEST) else Thrown(failure)
    case IoFailure => Reply(HTTP_BAD_REQUEST)
    case NoSuchAlgorithm => Reply(HTTP_BAD_REQUEST)
    case InvalidKey => Reply(HTTP_BAD_REQUEST)
    case NotFound => Reply(HTTP_NOT_FOUND)
    case MinioFailure => Reply(HTTP_INTERNAL_SERVER_ERROR)
    case _ => Thrown(failure)
  }

  /** The catch clauses of deleteDocument, which differ: an IOException is a 500 here, and
      NotFoundException is not caught at all. */
  function DeleteErrorReply(failure: Failure): (reply: Reply)
    ensures failure == MinioFailure || failure == IoFailure <==> reply == Reply(HTTP_INTERNAL_SERVER_ERROR)
    ensures failure == NoSuchAlgorithm || failure == InvalidKey <==> reply == Reply(HTTP_BAD_REQUEST)
    ensures failure == NotFound || failure.HttpError? || failure == MalformedAuthorization || failure == InvalidToken
        <==> reply == Thrown(failure)
  {
    match failure
    case MinioFailure => Reply(HTTP_INTERNAL_SERVER_ERROR)
    case IoFailure => Reply(HTTP_INTERNAL_SERVER_ERROR)
    case NoSuchAlgorithm => Reply(HTTP_BAD_REQUEST)
    case InvalidKey => Reply(HTTP_BAD_REQUEST)
    case _ => Thrown(failure)
  }

  /** The logo URL that changeCompanyLogo stores: MINIO_BASE_URI, a slash, the company's
      logo bucket, then "/logo", the object the handler uploads. */
  function LogoUrl(minioBaseUri: string, companyId: Uuid): (url: string)
    ensures var p := |minioBaseUri| + 1;
      var q := p + |LogoBucket(companyId)|;
      && |url| == q + 5
      && url[..p] == minioBaseUri + "/"
      && url[p..q] == LogoBucket(companyId)
      && url[q..] == "/logo"
  {
    var url := minioBaseUri + "/" + LogoBucket(companyId) + "/logo";
    assert url[..|minioBaseUri| + 1] == minioBaseUri + "/";
    url
  }

  /** The document URL that addCompanyDocument appends: GATEWAY_BASE_URI, a slash, the
      company's documents bucket, a slash, then the uploaded file's name. */
  function AddedDocumentUrl(gatewayBaseUri: string, companyId: Uuid, filename: string): (url: string)
    ensures var p := |gatewayBaseUri| + |DocumentsBucket(companyId)| + 2;
      && |url| == p + |filename|
      && url[..p] == gatewayBaseUri + "/" + DocumentsBucket(companyId) + "/"
      && url[p..] == filename
  {
    var url := gatewayBaseUri + "/" + DocumentsBucket(companyId) + "/" + filename;
    assert url[..|gatewayBaseUri| + |DocumentsBucket(companyId)| + 2] == gatewayBaseUri + "/" + DocumentsBucket(companyId) + "/";
    url
  }

  /** The document URL that deleteDocument removes, spelled out piece by piece. */
  function RemovedDocumentUrl(gatewayBaseUri: string, companyId: Uuid, objectName: string): string {
    gatewayBaseUri + "/" + "documents-" + companyId + "/" + objectName
  }

  /** Under one MINIO_BASE_URI, each company has a logo URL of its own. */
  lemma LogoUrlsSeparate(minioBaseUri: string, a: Uuid, b: Uuid)
    ensures LogoUrl(minioBaseUri, a) == LogoUrl(minioBaseUri, b) ==> a == b
  {
    if LogoUrl(minioBaseUri, a) == LogoUrl(minioBaseUri, b) {
      var p := |minioBaseUri| + 1;
      assert |LogoBucket(a)| == |LogoBucket(b)|;
      assert LogoBucket(a) == LogoUrl(minioBaseUri, a)[p..p + |LogoBucket(a)|];
      BucketNamesSeparate(a, b);
    }
  }

  /** Within one company, different file names give different document URLs. */
  lemma DocumentUrlsSeparate(gatewayBaseUri: string, companyId: Uuid, n1: string, n2: string)
    ensures AddedDocumentUrl(gatewayBaseUri, companyId, n1) == AddedDocumentUrl(gatewayBaseUri, companyId, n2) ==> n1 == n2
  {
  }

  /** Both handlers build the same URL for the same company and object name. */
  lemma DocumentUrlsAgree(gatewayBaseUri: string, companyId: Uuid, name: string)
    ensures AddedDocumentUrl(gatewayBaseUri, companyId, name) == RemovedDocumentUrl(gatewayBaseUri, companyId, name)
  {
  }

  // ---------------------------------------------------------------------------
  // List.remove(Object): the first occurrence goes
  // ---------------------------------------------------------------------------

  function RemoveFirst(s: seq<string>, x: string): (r: seq<string>)
    ensures |r| == if x in s then |s| - 1 else |s|
  {
    if s == [] then []
    else if s[0] == x then s[1..]
    else [s[0]] + RemoveFirst(s[1..], x)
  }

  /** Position of the first occurrence of `x` in `s`. */
  function IndexOf(s: seq<string>, x: string): (k: nat)
    requires x in s
    ensures k < |s| && s[k] == x && x !in s[..k]
  {
    if s[0] == x then 0 else 1 + IndexOf(s[1..], x)
  }

  /** Removing takes out exactly the first occurrence and keeps the rest in order. */
  lemma {:induction false} RemoveFirstSplits(s: seq<string>, x: string)
    requires x in s
    ensures RemoveFirst(s, x) == s[..IndexOf(s, x)] + s[IndexOf(s, x) + 1..]
  {
    if s[0] != x {
      RemoveFirstSplits(s[1..], x);
      assert s[1..][..IndexOf(s[1..], x)] == s[1..IndexOf(s, x)];
      assert s[1..][IndexOf(s[1..], x) + 1..] == s[IndexOf(s, x) + 1..];
    }
  }

  /** Removing one entry keeps every other entry listed. */
  lemma RemoveFirstKeepsOthers(s: seq<string>, x: string, y: string)
    requires y in s && y != x
    ensures y in RemoveFirst(s, x)
  {
    RemoveFirstMultiset(s, x);
    assert multiset(RemoveFirst(s, x))[y] == multiset(s)[y];
  }

  /** Deleting one document of a company leaves the URL of each other document of it in
      the list. */
  lemma DeleteKeepsOtherDocuments(urls: seq<string>, gatewayBaseUri: string, companyId: Uuid, deleted: string, kept: string)
    requires deleted != kept
    requires AddedDocumentUrl(gatewayBaseUri, companyId, kept) in urls
    ensures AddedDocumentUrl(gatewayBaseUri, companyId, kept) in RemoveFirst(urls, RemovedDocumentUrl(gatewayBaseUri, companyId, deleted))
  {
    DocumentUrlsAgree(gatewayBaseUri, companyId, deleted);
    DocumentUrlsSeparate(gatewayBaseUri, companyId, deleted, kept);
    RemoveFirstKeepsOthers(urls, RemovedDocumentUrl(gatewayBaseUri, companyId, deleted), AddedDocumentUrl(gatewayBaseUri, companyId, kept));
  }

  /** Removing an absent entry changes nothing. */
  lemma {:induction false} RemoveFirstAbsent(s: seq<string>, x: string)
    requires x !in s
    ensures RemoveFirst(s, x) == s
  {
    if s != [] {
      assert x !in s[1..];
      RemoveFirstAbsent(s[1..], x);
    }
  }

  /** As a multiset, removing takes away one copy of `x` when there is one. */
  lemma {:induction false} RemoveFirstMultiset(s: seq<string>, x: string)
    ensures multiset(RemoveFirst(s, x)) == multiset(s) - multiset{x}
  {
    if s != [] {
      assert s == [s[0]] + s[1..];
      assert multiset(s) == multiset{s[0]} + multiset(s[1..]);
      if s[0] != x {
        RemoveFirstMultiset(s[1..], x);
        assert RemoveFirst(s, x) == [s[0]] + RemoveFirst(s[1..], x);
        assert multiset(RemoveFirst(s, x)) == multiset{s[0]} + multiset(RemoveFirst(s[1..], x));
      }
    }
  }

  /** Appending an entry and then removing it restores the list, when the entry was not
      there before. */
  lemma AppendThenRemoveFirst(s: seq<string>, x: string)
    requires x !in s
    ensures RemoveFirst(s + [x], x) == s
  {
    var t := s + [x];
    assert x in t;
    RemoveFirstSplits(t, x);
    var k := IndexOf(t, x);
    assert t[..|s|] == s;
    assert k == |s|;
    assert t[..k] == s;
  }

  /** When the entry was already there, appending and removing leaves a copy of it: a
      re-uploaded document keeps a URL after its object is deleted. */
  lemma ReappendThenRemoveKeepsEntry(s: seq<string>, x: string)
    requires x in s
    ensures x in RemoveFirst(s + [x], x)
  {
    RemoveFirstMultiset(s + [x], x);
    assert multiset(s + [x])[x] >= 2;
    assert multiset(RemoveFirst(s + [x], x))[x] >= 1;
  }

  /** The list update addCompanyDocument evidently intends: a URL that is already listed
      is not listed a second time, so the list holds each URL at most once. */
  function AppendIfAbsent(s: seq<string>, x: string): (r: seq<string>)
    ensures x in r
    ensures forall y :: y in s ==> y in r
  {
    if x in s then s else s + [x]
  }

  /** With the intended update, a URL listed at most once is listed exactly once after an
      upload, and the delete's removal of the first copy leaves none behind. */
  lemma AppendIfAbsentThenRemove(s: seq<string>, x: string)
    requires multiset(s)[x] <= 1
    ensures multiset(AppendIfAbsent(s, x))[x] == 1
    ensures x !in RemoveFirst(AppendIfAbsent(s, x), x)
  {
    var t := AppendIfAbsent(s, x);
    if x !in s {
      assert multiset(s)[x] == 0;
      assert multiset(t) == multiset(s) + multiset{x};
    }
    RemoveFirstMultiset(t, x);
    assert multiset(RemoveFirst(t, x))[x] == 0;
  }

  // ---------------------------------------------------------------------------
  // The controller
  // ---------------------------------------------------------------------------

  const DEFAULT_MINIO_BASE_URI: string := "http://localhost:9000"
  const DEFAULT_GATEWAY_BASE_URI: string := "http://localhost:8090"

  /** Listing a URL that was not listed and then removing its first occurrence gives the
      company records back; removing it once more changes nothing. */
  lemma AppendThenRemoveRestoresRecords(records: map<Uuid, Company>, id: Uuid, url: string)
    requires id in records && url !in records[id].documentsUrl
    ensures var listed := records[id := records[id].(documentsUrl := records[id].documentsUrl + [url])];
      listed[id := listed[id].(documentsUrl := RemoveFirst(listed[id].documentsUrl, url))] == records
    ensures records[id := records[id].(documentsUrl := RemoveFirst(records[id].documentsUrl, url))] == records
  {
    AppendThenRemoveFirst(records[id].documentsUrl, url);
    RemoveFirstAbsent(records[id].documentsUrl, url);
    var listed := records[id := records[id].(documentsUrl := records[id].documentsUrl + [url])];
    assert listed[id].(documentsUrl := records[id].documentsUrl) == records[id];
    assert records[id].(documentsUrl := records[id].documentsUrl) == records[id];
  }

  class CompanyController {
    const companyService: CompanyService
    const minioService: MinioService
    const minioBaseUri: string
    const gatewayBaseUri: string

    /** The base URIs come from the environment variables MINIO_BASE_URI and
        GATEWAY_BASE_URI, with local defaults when they are unset. */
    constructor(companyService: CompanyService, minioService: MinioService,
                minioBaseUriVariable: Option<string>, gatewayBaseUriVariable: Option<string>)
      ensures this.companyService == companyService && this.minioService == minioService
      ensures minioBaseUri == if minioBaseUriVariable.Some? then minioBaseUriVariable.value else DEFAULT_MINIO_BASE_URI
      ensures gatewayBaseUri == if gatewayBaseUriVariable.Some? then gatewayBaseUriVariable.value else DEFAULT_GATEWAY_BASE_URI
    {
      this.companyService := companyService;
      this.minioService := minioService;
      minioBaseUri := if minioBaseUriVariable.Some? then minioBaseUriVariable.value else DEFAULT_MINIO_BASE_URI;
      gatewayBaseUri := if gatewayBaseUriVariable.Some? then gatewayBaseUriVariable.value else DEFAULT_GATEWAY_BASE_URI;
    }

    /** changeCompanyLogo: loads the company, uploads the file as "logo" into the public
        bucket "logo-<id>", then points logoUrl at it and saves the record. */
    method ChangeCompanyLogo(id: Uuid, file: MultipartFile) returns (reply: Reply)
      requires companyService.Valid()
      modifies companyService, minioService
      ensures companyService.Valid()
      ensures id !in old(companyService.companies) ==>
                && reply == Reply(HTTP_NOT_FOUND)
                && companyService.companies == old(companyService.companies)
                && minioService.buckets == old(minioService.buckets)
      ensures id in old(companyService.companies) && minioService.fault.Some? ==>
                && reply == UploadErrorReply(minioService.fault.value)
                && companyService.companies == old(companyService.companies)
                && minioService.buckets == old(minioService.buckets)
      ensures id in old(companyService.companies) && minioService.fault.None? ==>
                && reply == Reply(HTTP_OK)
                && minioService.buckets == Uploaded(old(minioService.buckets), LogoBucket(id), "logo", file, true)
                && companyService.companies == old(companyService.companies)[id :=
                     old(companyService.companies)[id].(logoUrl := LogoUrl(minioBaseUri, id))]
    {
      var found := companyService.GetCompanyById(id);
      if found.Err? {
        return UploadErrorReply(found.error);
      }
      var company := found.value;
      var bucketName := LogoBucket(id);
      var err := minioService.UploadFile(bucketName, "logo", file, true);
      if err.Some? {
        return UploadErrorReply(err.value);
      }
      company := company.(logoUrl := minioBaseUri + "/" + bucketName + "/logo");
      var saved := companyService.UpdateCompany(company);
      reply := match saved
        case Ok(_) => Reply(HTTP_OK)
        case Err(failure) => UploadErrorReply(failure);
    }

    /** addCompanyDocument: loads the company, uploads the file under its original name
        into the private bucket "documents-<id>", appends its URL to documentsUrl and
        saves the record. */
    method AddCompanyDocument(id: Uuid, file: MultipartFile) returns (reply: Reply)
      requires companyService.Valid()
      modifies companyService, minioService
      ensures companyService.Valid()
      ensures id !in old(companyService.companies) ==>
                && reply == Reply(HTTP_NOT_FOUND)
                && companyService.companies == old(companyService.companies)
                && minioService.buckets == old(minioService.buckets)
      ensures id in old(companyService.companies) && minioService.fault.Some? ==>
                && reply == UploadErrorReply(minioService.fault.value)
                && companyService.companies == old(companyService.companies)
                && minioService.buckets == old(minioService.buckets)
      ensures id in old(companyService.companies) && minioService.fault.None? ==>
                && reply == Reply(HTTP_OK)
                && minioService.buckets == Uploaded(old(minioService.buckets), DocumentsBucket(id), file.originalFilename, file, false)
                && minioService.DocumentExistsInDocumentsBucket(id, file.originalFilename)
                && companyService.companies == old(companyService.companies)[id :=
                     old(companyService.companies)[id].(documentsUrl :=
                       old(companyService.companies)[id].documentsUrl + [AddedDocumentUrl(gatewayBaseUri, id, file.originalFilename)])]
    {
      var found := companyService.GetCompanyById(id);
      if found.Err? {
        return UploadErrorReply(found.error);
      }
      var company := found.value;
      var bucketName := DocumentsBucket(id);
      var err := minioService.UploadFile(bucketName, file.originalFilename, file, false);
      if err.Some? {
        return UploadErrorReply(err.value);
      }
      var documentsUrl := company.documentsUrl;
      documentsUrl := documentsUrl + [gatewayBaseUri + "/" + bucketName + "/" + file.originalFilename];
      company := company.(documentsUrl := documentsUrl);
      var saved := companyService.UpdateCompany(company);
      reply := match saved
        case Ok(_) => Reply(HTTP_OK)
        case Err(failure) => UploadErrorReply(failure);
    }

    /** deleteDocument: removes the object from "documents-<id>" first, then loads the
        company, removes the first occurrence of the document's URL and saves the record. */
    method DeleteDocument(id: Uuid, objectName: string) returns (reply: Reply)
      requires companyService.Valid()
      modifies companyService, minioService
      ensures companyService.Valid()
      ensures minioService.fault.Some? ==>
                && reply == DeleteErrorReply(minioService.fault.value)
                && companyService.companies == old(companyService.companies)
                && minioService.buckets == old(minioService.buckets)
      ensures minioService.fault.None? && DocumentsBucket(id) !in old(minioService.buckets) ==>
                && reply == Reply(HTTP_INTERNAL_SERVER_ERROR)
                && companyService.companies == old(companyService.companies)
                && minioService.buckets == old(minioService.buckets)
      ensures minioService.fault.None? && DocumentsBucket(id) in old(minioService.buckets) ==>
                && minioService.buckets == WithoutObject(old(minioService.buckets), DocumentsBucket(id), objectName)
                && (id !in old(companyService.companies) ==>
                      reply == Thrown(NotFound) && companyService.companies == old(companyService.companies))
                && (id in old(companyService.companies) ==>
                      && reply == Reply(HTTP_OK)
                      && companyService.companies == old(companyService.companies)[id :=
                           old(companyService.companies)[id].(documentsUrl :=
                             RemoveFirst(old(companyService.companies)[id].documentsUrl, RemovedDocumentUrl(gatewayBaseUri, id, objectName)))])
    {
      var err := minioService.DeleteFileFromPrivateBucket("documents-" + id, objectName);
      if err.Some? {
        return DeleteErrorReply(err.value);
      }
      var found := companyService.GetCompanyById(id);
      if found.Err? {
        return Thrown(found.error);
      }
      var company := found.value;
      var documentsUrl := company.documentsUrl;
      documentsUrl := RemoveFirst(documentsUrl, gatewayBaseUri + "/" + "documents-" + id + "/" + objectName);
      company := company.(documentsUrl := documentsUrl);
      var saved := companyService.UpdateCompany(company);
      reply := match saved
        case Ok(_) => Reply(HTTP_OK)
        case Err(failure) => Thrown(failure);
    }

    /** Adding a document and deleting it, twice, through the handlers: the record is back
        as it was, the object is gone and the second delete still succeeds. */
    method AddThenDeleteDocument(id: Uuid, file: MultipartFile) returns (added: Reply, deleted: Reply, deletedAgain: Reply)
      requires companyService.Valid()
      requires id in companyService.companies && minioService.fault.None?
      requires AddedDocumentUrl(gatewayBaseUri, id, file.originalFilename) !in companyService.companies[id].documentsUrl
      modifies companyService, minioService
      ensures added == Reply(HTTP_OK) && deleted == Reply(HTTP_OK) && deletedAgain == Reply(HTTP_OK)
      ensures companyService.companies == old(companyService.companies)
      ensures !minioService.DocumentExistsInDocumentsBucket(id, file.originalFilename)
      ensures !old(ObjectExists(minioService.buckets, DocumentsBucket(id), file.originalFilename))
              && DocumentsBucket(id) in old(minioService.buckets) ==>
                minioService.buckets == old(minioService.buckets)
    {
      ghost var before := minioService.buckets;
      ghost var records := companyService.companies;
      ghost var bucket := DocumentsBucket(id);
      var url := AddedDocumentUrl(gatewayBaseUri, id, file.originalFilename);
      DocumentUrlsAgree(gatewayBaseUri, id, file.originalFilename);
      AppendThenRemoveRestoresRecords(records, id, url);
      ghost var listed := records[id := records[id].(documentsUrl := records[id].documentsUrl + [url])];
      ghost var uploaded := Uploaded(before, bucket, file.originalFilename, file, false);
      ghost var removed := WithoutObject(uploaded, bucket, file.originalFilename);
      RemoveAbsent(removed, bucket, file.originalFilename);
      if !ObjectExists(before, bucket, file.originalFilename) {
        UploadThenRemove(before, bucket, file.originalFilename, file, false);
      }

      added := AddCompanyDocument(id, file);
      assert companyService.companies == listed && minioService.buckets == uploaded;
      deleted := DeleteDocument(id, file.originalFilename);
      assert companyService.companies == records && minioService.buckets == removed;
      deletedAgain := DeleteDocument(id, file.originalFilename);
    }

    /** Uploading a document whose URL is already listed and then deleting it through the
        handlers: both calls answer 200 and the object is gone, yet the record still lists
        a URL pointing at it. */
    method ReuploadThenDeleteDocument(id: Uuid, file: MultipartFile) returns (added: Reply, deleted: Reply)
      requires companyService.Valid()
      requires id in companyService.companies && minioService.fault.None?
      requires AddedDocumentUrl(gatewayBaseUri, id, file.originalFilename) in companyService.companies[id].documentsUrl
      modifies companyService, minioService
      ensures added == Reply(HTTP_OK) && deleted == Reply(HTTP_OK)
      ensures !minioService.DocumentExistsInDocumentsBucket(id, file.originalFilename)
      ensures id in companyService.companies
      ensures AddedDocumentUrl(gatewayBaseUri, id, file.originalFilename) in companyService.companies[id].documentsUrl
    {
      var urls := companyService.companies[id].documentsUrl;
      var url := AddedDocumentUrl(gatewayBaseUri, id, file.originalFilename);
      added := AddCompanyDocument(id, file);
      assert companyService.companies[id].documentsUrl == urls + [url];
      deleted := DeleteDocument(id, file.originalFilename);
      DocumentUrlsAgree(gatewayBaseUri, id, file.originalFilename);
      ReappendThenRemoveKeepsEntry(urls, url);
    }
  }
}
