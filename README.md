# Company microservice: a verified model

A Spring service that keeps companies: their records (name, logo URL, description,
size range, address ids, SIRET number, document URLs), their logos and documents in
an S3-compatible object store (MinIO), and a detailed view that joins each company with
its addresses fetched from a separate address service. This project models the logic of
that service in Dafny and proves what it promises:

- `Companies` (`company_service.dfy`): the company store as a class over a map from id to
  record (the JPA repository). It covers lookup, update and delete. It also covers the
  detailed view and the address list, which fetch the addresses one at a time, in order,
  and stop at the first answer that is not 200 OK. The last part is the membership
  decision for a caller's bearer token.
- `Storage` (`minio_service.dfy`): the object store as a class over a map from bucket name
  to bucket, where a bucket is a policy document plus objects by name. It covers
  idempotent bucket creation with a public or private policy, uploads and removals. It
  also covers the document-existence check, whose bucket name is wrong (see Findings).
- `Api` (`company_controller.dfy`): the controller handlers that upload a logo, add a
  document and delete a document. Each one updates the stored record's `logoUrl` or
  `documentsUrl` after the object-store call and maps exceptions to HTTP statuses.
- `Hashing` (`hash_service.dfy`): the loop that renders a SHA-256 digest as lower-case
  hexadecimal, and its truncation to 62 characters.
- `Common` (`common.dfy`): ids, `Option`, `Result`, the exception kinds, status codes.

The networked collaborators are parameters:
- the address service and the user service are functions from (credential, id) to a response;
- the JWT subject parser is a function from a token to an optional id;
- SHA-256 and UTF-8 encoding are functions;
- the MinIO backend is the `buckets` map, plus a `fault` that makes every request fail
  when the backend cannot be used.

The model also shows a weakness of the document list. Re-uploading a document under the
same file name appends a second copy of its URL, and a delete removes only the first copy.
The record then keeps a URL to an object that no longer exists (see Findings). The
handlers are modelled as written; the corrected list update, `Api.AppendIfAbsent`, stands
beside them with its proof.

## Model

| member | source | states |
|---|---|---|
| Hashing.Unsigned | src/main/java/fr/polytech/service/HashService.java:42 | the value `%02x` prints for a signed Java byte is in 0..255 and congruent to the byte modulo 256 |
| Hashing.FormatByte | src/main/java/fr/polytech/service/HashService.java:42 | one byte renders as exactly two lower-case hex digits whose value is the byte's unsigned value |
| Hashing.HexString | src/main/java/fr/polytech/service/HashService.java:40-43 | the StringBuilder loop yields twice as many characters as bytes, all lower-case hex, each byte's pair at its own position in order |
| Hashing.Hash | src/main/java/fr/polytech/service/HashService.java:22-56 | fails with NoSuchAlgorithmException exactly when SHA-256 is unavailable; otherwise returns exactly 62 hex characters that render the first 31 bytes of the digest of the input's UTF-8 bytes |
| Hashing.DecodeHex | src/main/java/fr/polytech/service/HashService.java:40-43 | reading a rendering back gives one byte per two characters (the inverse of the loop) |
| Hashing.DecodeRendering | src/main/java/fr/polytech/service/HashService.java:40-43 | decoding a rendering of some bytes gives back exactly those bytes |
| Hashing.RenderingDeterministic | src/main/java/fr/polytech/service/HashService.java:40-46 | the rendering is a function of the bytes, so equal inputs hash to equal strings |
| Hashing.SameHashSameDigestPrefix | src/main/java/fr/polytech/service/HashService.java:46 | two inputs with the same 62-character hash have digests that agree on their first 31 bytes |
| Hashing.ToByte | src/main/java/fr/polytech/service/HashService.java:42 | the signed byte whose unsigned rendering value is a given 0..255 value |
| Hashing.UnsignedInjective | src/main/java/fr/polytech/service/HashService.java:42 | different bytes print differently |
| Storage.LogoBucket | src/main/java/fr/polytech/restcontroller/CompanyController.java:188 | the logo bucket's name is "logo-" followed by the company id, which it gives back |
| Storage.DocumentsBucket | src/main/java/fr/polytech/restcontroller/CompanyController.java:230 | the documents bucket's name is "documents-" followed by the company id, which it gives back |
| Storage.BucketNamesSeparate | src/main/java/fr/polytech/restcontroller/CompanyController.java:188-230 | a logo bucket is never a documents bucket, and each bucket name belongs to one company |
| Storage.PublicPolicy | src/main/java/fr/polytech/service/MinioService.java:50-69 | the public document holds a statement allowing s3:GetBucketLocation and s3:ListBucket to the principal `"*"` on `arn:aws:s3:::<bucket>`, and one allowing s3:GetObject to `"*"` on `arn:aws:s3:::<bucket>/*`; it reads back as public and as made for that bucket |
| Storage.PrivatePolicy | src/main/java/fr/polytech/service/MinioService.java:85-108 | the same two statements with the principal `{"AWS": "arn:aws:iam::company:root"}`, the service's own account; it reads back as not public and as made for that bucket |
| Storage.BucketPolicyGrants | src/main/java/fr/polytech/service/MinioService.java:50-108 | for any principal, the document holds both statements, each naming that principal and the bucket |
| Storage.BucketPolicyReadBack | src/main/java/fr/polytech/service/MinioService.java:50-108 | for any non-empty principal, the principal of the first statement and the bucket of the first resource ARN sit where the readers look |
| Storage.PolicyForRoundTrip | src/main/java/fr/polytech/service/MinioService.java:50-108 | reading the visibility from the first statement's principal (`"*"` or the account object) and the bucket from the first resource ARN gives back what the document was made for |
| Storage.PolicyForInjective | src/main/java/fr/polytech/service/MinioService.java:50-108 | no two buckets or visibilities share a policy document |
| Storage.MinioService.constructor | src/main/java/fr/polytech/service/MinioService.java:29-36 | the client stands for a backend in a given state, and a fault can only be one the MinIO client declares |
| Storage.MinioService.BucketExists | src/main/java/fr/polytech/service/MinioService.java:157-159 | answers whether the bucket is present, or fails with the backend's fault |
| Storage.MinioService.CreateBucket | src/main/java/fr/polytech/service/MinioService.java:124-144 | a missing bucket is created empty with exactly the given policy; an existing one is an error response and nothing changes |
| Storage.MinioService.CreateBucketIfNotExists | src/main/java/fr/polytech/service/MinioService.java:171-179 | an existing bucket is left untouched; a missing one is created with the public policy iff `isPublic`, else the private one |
| Storage.WithBucketIdempotent | src/main/java/fr/polytech/service/MinioService.java:171-179 | ensuring a bucket twice is ensuring it once, whatever visibility the second call asks for |
| Storage.MinioService.UploadFile | src/main/java/fr/polytech/service/MinioService.java:191-212 | ensures the bucket, then stores the file's type and bytes under the object name, replacing any earlier object |
| Storage.UploadKeepsPolicies | src/main/java/fr/polytech/service/MinioService.java:171-194 | an upload adds at most its own bucket, keeps every existing policy, and a new bucket's policy is the one the flag selects |
| Storage.UploadStoresOnlyThatObject | src/main/java/fr/polytech/service/MinioService.java:191-206 | an upload stores the named object; the bucket's other objects keep their names and contents, and other buckets are unchanged |
| Storage.MinioService.DeleteFileFromPrivateBucket | src/main/java/fr/polytech/service/MinioService.java:254-261 | removes the named object and nothing else; a missing bucket is an error response |
| Storage.RemoveAbsent | src/main/java/fr/polytech/service/MinioService.java:254-261 | after a removal the object is absent, and removing an absent object changes nothing |
| Storage.UploadThenRemove | src/main/java/fr/polytech/service/MinioService.java:191-261 | uploading a new object and removing it leaves the object absent and an existing bucket as it was |
| Storage.MinioService.DocumentExistsAndBelongsToCompany | src/main/java/fr/polytech/service/MinioService.java:270-281 | as written: true iff the object is in the bucket named by the bare company id; a backend failure answers false and nothing is thrown |
| Storage.MinioService.DocumentExistsInDocumentsBucket | src/main/java/fr/polytech/service/MinioService.java:270-281 | corrected: true iff the object is in the company's documents bucket; a backend failure answers false |
| Storage.DocumentCheckLooksInWrongBucket | src/main/java/fr/polytech/service/MinioService.java:270-281 | the check as written answers false for a document stored in the company's documents bucket |
| Storage.DocumentsBucketCheckTracksUploads | src/main/java/fr/polytech/service/MinioService.java:270-281 | the corrected check sees every document upload and no removed document |
| Companies.CompanyService.constructor | src/main/java/fr/polytech/service/CompanyService.java:33-34 | the injected repository holds records each stored under its own id |
| Companies.CompanyService.GetCompanyById | src/main/java/fr/polytech/service/CompanyService.java:65-77 | the stored record for a present id, NotFound otherwise |
| Companies.FetchedIffAllOk | src/main/java/fr/polytech/service/CompanyService.java:99-127 | the address fetch succeeds iff every id is answered with exactly 200 |
| Companies.FetchedInOrder | src/main/java/fr/polytech/service/CompanyService.java:99-127 | on success, one address per id, the i-th being the body fetched for the i-th id, duplicates included |
| Companies.AbortedAtFirstFailure | src/main/java/fr/polytech/service/CompanyService.java:117-122 | a failure carries the status of the first id, in list order, not answered with 200; all ids before it were answered with 200 |
| Companies.FetchAddressList | src/main/java/fr/polytech/service/CompanyService.java:98-128 | the loop computes the fetch outcome and sends requests for exactly the ids up to and including the failing one |
| Companies.IndexOfSpace | src/main/java/fr/polytech/service/CompanyService.java:104 | the position of the first space, or the length when there is none |
| Companies.SecondField | src/main/java/fr/polytech/service/CompanyService.java:104 | `split(" ")[1]`: absent when there is no space or only spaces follow the first one; otherwise the space-free run of characters right after the first space (also line 239) |
| Companies.SecondFieldOfBearerHeader | src/main/java/fr/polytech/service/CompanyService.java:104 | `split(" ")[1]` of a header "scheme token" is the token |
| Companies.CompanyService.GetDetailedCompanyById | src/main/java/fr/polytech/service/CompanyService.java:92-137 | NotFound with no request for an absent id; an empty address list needs no request and no well-formed header; otherwise all addresses in order or the first non-200 status; the view copies the record's other fields |
| Companies.CompanyService.GetCompanyAddressList | src/main/java/fr/polytech/service/CompanyService.java:189-226 | NotFound for an absent id; otherwise the same fail-fast ordered fetch with the token as given |
| Companies.CompanyService.UpdateCompany | src/main/java/fr/polytech/service/CompanyService.java:147-168 | NotFound and no change for an unknown id; otherwise the record under that id becomes the input and no other record changes |
| Companies.CompanyService.DeleteCompany | src/main/java/fr/polytech/service/CompanyService.java:173-187 | NotFound and no change for an unknown id; otherwise exactly that id is removed |
| Companies.MembershipDecision | src/main/java/fr/polytech/service/CompanyService.java:258-265 | no user is NOT_FOUND; a user who is not a recruiter or has no company is FORBIDDEN; otherwise true iff the user's company is the given one (each an iff) |
| Companies.IsUserMemberOfCompany | src/main/java/fr/polytech/service/CompanyService.java:236-266 | a header without a second field is the index error and an unparsable token the decode error (each an iff); an error status of the user service is thrown with that status; otherwise the membership decision on the body; true exactly when the user is a recruiter of this company |
| Api.UploadErrorReply | src/main/java/fr/polytech/restcontroller/CompanyController.java:205-211 | NotFound is 404, MinioException is 500, HttpClientErrorException, IO, algorithm and key errors are 400; a 5xx HTTP error, a malformed header and a bad token propagate (each an iff) |
| Api.DeleteErrorReply | src/main/java/fr/polytech/restcontroller/CompanyController.java:291-295 | MinioException and IO errors are 500, algorithm and key errors are 400, NotFound and the rest propagate |
| Api.LogoUrl | src/main/java/fr/polytech/restcontroller/CompanyController.java:188-196 | the stored logo URL is MINIO_BASE_URI and a slash, then the company's logo bucket, then "/logo"; each part is given back at its position |
| Api.AddedDocumentUrl | src/main/java/fr/polytech/restcontroller/CompanyController.java:230-236 | the appended URL is GATEWAY_BASE_URI, a slash, the company's documents bucket and a slash, then the uploaded file's name, which is given back whole |
| Api.LogoUrlsSeparate | src/main/java/fr/polytech/restcontroller/CompanyController.java:188-196 | under one base URI, two companies never share a logo URL |
| Api.DocumentUrlsSeparate | src/main/java/fr/polytech/restcontroller/CompanyController.java:230-236 | within one company, two file names never share a document URL |
| Api.DocumentUrlsAgree | src/main/java/fr/polytech/restcontroller/CompanyController.java:236 | the URL appended on add equals the URL removed on delete (line 287) for the same company and name |
| Api.RemoveFirst | src/main/java/fr/polytech/restcontroller/CompanyController.java:287 | `List.remove(Object)` shortens the list by one iff the entry is present |
| Api.IndexOf | src/main/java/fr/polytech/restcontroller/CompanyController.java:287 | the first position holding the entry |
| Api.RemoveFirstSplits | src/main/java/fr/polytech/restcontroller/CompanyController.java:287 | removal takes out exactly the first occurrence and keeps the rest in order |
| Api.RemoveFirstKeepsOthers | src/main/java/fr/polytech/restcontroller/CompanyController.java:287 | removing one URL keeps every other listed URL |
| Api.DeleteKeepsOtherDocuments | src/main/java/fr/polytech/restcontroller/CompanyController.java:236-287 | deleting one document of a company never unlists another document of that company |
| Api.RemoveFirstAbsent | src/main/java/fr/polytech/restcontroller/CompanyController.java:287 | removing an absent URL leaves the list unchanged |
| Api.RemoveFirstMultiset | src/main/java/fr/polytech/restcontroller/CompanyController.java:287 | as a multiset, removal takes away one copy of the entry |
| Api.AppendThenRemoveRestoresRecords | src/main/java/fr/polytech/restcontroller/CompanyController.java:236-287 | appending a new URL to one record and removing its first copy gives the records back; a second removal changes nothing |
| Api.AppendThenRemoveFirst | src/main/java/fr/polytech/restcontroller/CompanyController.java:236-287 | appending a new URL and removing it restores the list |
| Api.ReappendThenRemoveKeepsEntry | src/main/java/fr/polytech/restcontroller/CompanyController.java:236-287 | appending a URL already present and removing it leaves a copy |
| Api.AppendIfAbsent | src/main/java/fr/polytech/restcontroller/CompanyController.java:234-236 | corrected update: the URL is listed afterwards and no listed URL is dropped |
| Api.AppendIfAbsentThenRemove | src/main/java/fr/polytech/restcontroller/CompanyController.java:234-287 | with the corrected update a URL is listed exactly once, so the delete's removal leaves none |
| Api.CompanyController.constructor | src/main/java/fr/polytech/restcontroller/CompanyController.java:44-45 | the base URIs come from MINIO_BASE_URI and GATEWAY_BASE_URI, defaulting to localhost:9000 and localhost:8090 |
| Api.CompanyController.ChangeCompanyLogo | src/main/java/fr/polytech/restcontroller/CompanyController.java:183-212 | unknown id: 404 with nothing uploaded; backend failure: its status with nothing changed; otherwise the file is stored as "logo" in the public bucket "logo-<id>" and only the record's logoUrl changes, to MINIO_BASE_URI/logo-<id>/logo |
| Api.CompanyController.AddCompanyDocument | src/main/java/fr/polytech/restcontroller/CompanyController.java:225-248 | unknown id: 404 with nothing uploaded; backend failure: its status with nothing changed; otherwise the file is stored privately in "documents-<id>" and exactly one URL is appended to documentsUrl |
| Api.CompanyController.DeleteDocument | src/main/java/fr/polytech/restcontroller/CompanyController.java:279-296 | the object is removed before the record is loaded: an unknown id propagates NotFound after the removal; otherwise the first copy of the URL is removed and the answer is 200 even when it was absent |
| Api.CompanyController.ReuploadThenDeleteDocument | src/main/java/fr/polytech/restcontroller/CompanyController.java:225-296 | re-uploading a listed document and deleting it answers 200 twice and removes the object, yet its URL stays listed |
| Api.CompanyController.AddThenDeleteDocument | src/main/java/fr/polytech/restcontroller/CompanyController.java:225-296 | adding a new document and deleting it twice answers 200 each time, restores the record, and leaves the object gone |

## Left out

- getAllCompanies, getAllCompaniesMinimized and createCompany: repository reads and the insert, with no logic beyond the store.
- The controller handlers that only call a service method and map its exceptions (getCompanyById, getDetailedCompanyById, updateCompany, deleteCompany): the service methods are modelled and the mapping adds nothing to prove.
- The getCompanyAddressList handler is not modelled on its own; only the service method it calls is. Before that call, the handler takes the bearer token with `split(" ")[1]`, the rule `Companies.SecondField` models. A header without a second field therefore escapes as an uncaught index exception, even for an unknown id. The handler catches only NotFound (answered 404), so a non-200 answer of the address service propagates instead of becoming 400 as it does in getDetailedCompanyById's handler.
- getPrivateDocumentUrl and the controller's getDocument: presigned URLs are time-based capabilities that the MinIO library generates.
- The SHA-256 algorithm and UTF-8 encoding are function parameters; HashService.hash has no caller in the modelled code.
- JWT.decode and UUID.fromString are one parameter, `subjectOf`, from token to optional user id.
- RestTemplate exchanges are function parameters; the address list and the detailed view share one loop method, because their loops are the same apart from the credential.
- Null fields of Company and null response bodies of the address service are not modelled; a null user body is (`Option`).
- The security annotations (IsRecruiterOrAdmin and the document-ownership annotation) are not part of this model; their definitions are not in the modelled code.
- Logging, the multipart input stream (`getInputStream`, `available`, `close`) and the region argument of MinIO requests.
- Concurrency: two requests that read-modify-write the same record can lose an update; the model is sequential.
- Api.UploadErrorReply: HttpError is one kind with a status; the HttpClientErrorException and HttpServerErrorException classes are told apart by that status (5xx is the server kind), which is how the services raise them.
- Api.CompanyController.AddCompanyDocument: the MinIO client's own check of object names is not modelled, so every file name is accepted. putObject's argument builder rejects an empty or missing name with IllegalArgumentException, after the bucket may already have been made; the handler does not catch it, so no URL is appended. ChangeCompanyLogo always uses the name "logo" and is unaffected.
- Storage.MinioService.UploadFile: a backend fault fails the whole call with nothing changed, so the partial states of the real backend (bucket created but policy not set, bucket created but put failed) are not modelled; nor is the client's rejection of an empty object name (see AddCompanyDocument).
- Api.CompanyController.ChangeCompanyLogo: the NotFound that updateCompany could raise after the upload needs a concurrent delete, so in the sequential model the save always succeeds; the same holds for AddCompanyDocument and DeleteDocument.
- Companies.CompanyService.GetDetailedCompanyById: the token split in the loop uses Java's `split(" ")` rule (trailing empty strings dropped) as written; other whitespace is not treated as a separator, as in Java.

## Findings

| source | as written | input that shows it | evidently intended | confidence | as-written member | corrected member |
|---|---|---|---|---|---|---|
| src/main/java/fr/polytech/service/MinioService.java:274 | documentExistsAndBelongsToCompany stats the object in the bucket named by the bare company id | a company whose document "a.pdf" was uploaded to "documents-<id>" and no bucket named "<id>": the check answers false | stat the object in "documents-<id>", where addCompanyDocument stores it and deleteDocument removes it | not executed | Storage.DocumentCheckLooksInWrongBucket | Storage.DocumentsBucketCheckTracksUploads |
| src/main/java/fr/polytech/restcontroller/CompanyController.java:236 | addCompanyDocument appends the document's URL even when it is already listed, and deleteDocument (line 287) removes only its first copy | a company whose documentsUrl already lists ".../documents-<id>/a.pdf": upload "a.pdf" again, then delete "a.pdf"; the object is gone and the URL is still listed | list each URL at most once, so that deleting a document removes its URL | not executed | Api.CompanyController.ReuploadThenDeleteDocument | Api.AppendIfAbsentThenRemove |
