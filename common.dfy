/** Types shared by the services and the controller of the company microservice. */
module Common {

  /** A `java.util.UUID`, represented by its canonical textual form: the string that
      `toString()` returns and that bucket names and URLs are built from. */
  type Uuid = string

  datatype Option<+T> = None | Some(value: T)

  /** Every exception the modelled code raises or lets through, by kind. */
  datatype Failure =
    | NotFound                 // jakarta.ws.rs.NotFoundException ("Company not found")
    | HttpError(status: int)   // HttpClientErrorException, or HttpServerErrorException for a 5xx status
    | MalformedAuthorization   // ArrayIndexOutOfBoundsException from header.split(" ")[1]
    | InvalidToken             // JWT.decode or UUID.fromString rejecting the bearer token
    | MinioFailure             // io.minio.errors.MinioException (any error response of the backend)
    | IoFailure                // java.io.IOException
    | NoSuchAlgorithm          // java.security.NoSuchAlgorithmException
    | InvalidKey               // java.security.InvalidKeyException
  {
    /** The checked exceptions that the MinIO client declares. */
    predicate IsStorageFault() {
      MinioFailure? || IoFailure? || NoSuchAlgorithm? || InvalidKey?
    }
  }

  datatype Result<+T> = Ok(value: T) | Err(error: Failure)

  const HTTP_OK: int := 200
  const HTTP_BAD_REQUEST: int := 400
  const HTTP_FORBIDDEN: int := 403
  const HTTP_NOT_FOUND: int := 404
  const HTTP_INTERNAL_SERVER_ERROR: int := 500
}
