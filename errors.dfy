/** The error middleware of src/middlewares/ErrorMiddleware.js: the 404 handler
    for unknown routes and the global handler that turns an error into a status
    and a message. */
module Errors {
  import opened Wrappers

  /** The `code` property of an error: multer uses strings, the MongoDB driver
      numbers (11000 for a duplicate key). */
  datatype ErrorCode = NoCode | TextCode(name: string) | NumberCode(n: int)

  /** The parts of an error the handler reads. `statusCode` is `None` when the
      property is absent; `keyPattern` lists the keys of `err.keyPattern` in
      order; a missing or empty message is `""`. */
  datatype AppError = AppError(
    isMulterError: bool,
    code: ErrorCode,
    keyPattern: seq<string>,
    statusCode: Option<int>,
    message: string)

  /** `res.status(status).json({ success: false, message, error? })`. */
  datatype Response = Response(status: int, message: string, error: Option<string>)

  const DuplicateKeyCode: int := 11000
  const FileTooLargeMessage: string := "File size too large. Please upload a file less than 5MB"
  const TooManyFilesMessage: string := "Too many files to upload. Please upload a single file"
  const UploadErrorMessage: string := "Error while uploading files"
  const InternalErrorMessage: string := "Internal Server Error"
  const NotFoundPrefix: string := "The page or resource is Not Found - "
  const AlreadyExistsSuffix: string := " already exists"

  /** `notFound`: always 404, naming the requested URL. */
  function NotFound(originalUrl: string): (r: Response)
    ensures r.status == 404 && r.error.None?
    ensures |r.message| == |NotFoundPrefix| + |originalUrl|
    ensures r.message[..|NotFoundPrefix|] == NotFoundPrefix && r.message[|NotFoundPrefix|..] == originalUrl
  {
    Response(404, NotFoundPrefix + originalUrl, None)
  }

  /** The URL can be read back from the 404 message, so distinct URLs give
      distinct messages. */
  lemma NotFoundInjective(u1: string, u2: string)
    requires NotFound(u1) == NotFound(u2)
    ensures u1 == u2
  {
    assert u1 == NotFound(u1).message[|NotFoundPrefix|..];
  }

  /** `${field} already exists` for the first key of `keyPattern`; with no key
      the template prints `undefined`. */
  function DuplicateMessage(keyPattern: seq<string>): string
  {
    (if keyPattern == [] then "undefined" else keyPattern[0]) + AlreadyExistsSuffix
  }

  /** `errorHandler`. */
  function HandleError(err: AppError): (r: Response)
    ensures err.isMulterError ==> r.status == 400
    ensures !err.isMulterError && err.code == NumberCode(DuplicateKeyCode) ==>
      r == Response(409, DuplicateMessage(err.keyPattern), None)
    ensures r.error.Some? <==> err.isMulterError && err.code !in {TextCode("LIMIT_FILE_SIZE"), TextCode("LIMIT_UNEXPECTED_FILE"), TextCode("LIMIT_FILE_COUNT")}
    ensures r.status != 0 && r.message != ""
  {
    if err.isMulterError then
      if err.code == TextCode("LIMIT_FILE_SIZE") then Response(400, FileTooLargeMessage, None)
      else if err.code == TextCode("LIMIT_UNEXPECTED_FILE") then Response(400, TooManyFilesMessage, None)
      else if err.code == TextCode("LIMIT_FILE_COUNT") then Response(400, TooManyFilesMessage, None)
      else Response(400, UploadErrorMessage, Some(err.message))
    else if err.code == NumberCode(DuplicateKeyCode) then
      Response(409, DuplicateMessage(err.keyPattern), None)
    else
      Response(
        if err.statusCode.None? || err.statusCode.value == 0 then 500 else err.statusCode.value,
        if err.message == "" then InternalErrorMessage else err.message,
        None)
  }

  /** The multer branch: the size limit has its own message, both "too many
      files" codes share one, and any other multer error passes its message on. */
  lemma MulterErrors(err: AppError)
    requires err.isMulterError
    ensures err.code == TextCode("LIMIT_FILE_SIZE") ==> HandleError(err) == Response(400, FileTooLargeMessage, None)
    ensures err.code == TextCode("LIMIT_UNEXPECTED_FILE") || err.code == TextCode("LIMIT_FILE_COUNT") ==>
      HandleError(err) == Response(400, TooManyFilesMessage, None)
    ensures err.code !in {TextCode("LIMIT_FILE_SIZE"), TextCode("LIMIT_UNEXPECTED_FILE"), TextCode("LIMIT_FILE_COUNT")} ==>
      HandleError(err) == Response(400, UploadErrorMessage, Some(err.message))
  {
  }

  /** Multer is checked first: a multer error is answered 400 whatever its code
      and key pattern, even the duplicate-key number. */
  lemma MulterBeforeDuplicate(err: AppError)
    requires err.isMulterError
    ensures HandleError(err.(code := NumberCode(DuplicateKeyCode))) == Response(400, UploadErrorMessage, Some(err.message))
  {
  }

  /** Any other error: its own status code or 500, its own message or the
      generic one; a 409 reply here comes only from the error's own status. */
  lemma OtherErrors(err: AppError)
    requires !err.isMulterError && err.code != NumberCode(DuplicateKeyCode)
    ensures var r := HandleError(err);
      && (r.status == 500 <==> err.statusCode.None? || err.statusCode.value == 0 || err.statusCode.value == 500)
      && (err.statusCode.Some? && err.statusCode.value != 0 ==> r.status == err.statusCode.value)
      && (r.message == InternalErrorMessage <==> err.message == "" || err.message == InternalErrorMessage)
      && (err.message != "" ==> r.message == err.message)
      && r.error.None?
  {
  }

  /** The duplicate-key message names the first key of the pattern: it is that
      key followed by " already exists". */
  lemma DuplicateNamesFirstKey(keyPattern: seq<string>)
    requires keyPattern != []
    ensures var m := DuplicateMessage(keyPattern);
      |m| == |keyPattern[0]| + |AlreadyExistsSuffix| && m[..|keyPattern[0]|] == keyPattern[0]
      && m[|keyPattern[0]|..] == AlreadyExistsSuffix
  {
  }
}
