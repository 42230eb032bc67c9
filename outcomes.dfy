/** Values shared by every part of the catalogue: optional values, handler
    results, and the HTTP errors the handlers raise. */
module Outcomes {

  datatype Option<+T> = None | Some(value: T)

  /** What a handler hands back: a value, or the HTTPException it raises. */
  datatype Result<+T> = Ok(value: T) | Err(error: HttpError)

  /** An HTTPException: a status code and the `detail` string sent to the client. */
  datatype HttpError = HttpError(status: nat, detail: string)

  const BadRequest: nat := 400
  const Unauthorized: nat := 401
  const NotFound: nat := 404
  const UnprocessableEntity: nat := 422
  const InternalServerError: nat := 500

  /** The body of a 500 response produced by an exception nobody catches. */
  const InternalServerErrorDetail: string := "Internal Server Error"

  /** Stands for the list of field errors of a 422 validation response. */
  const RequestValidationDetail: string := "Request validation failed"

  const DetailPrefix: string := "Stock with ticker "

  function AlreadyExistsDetail(ticker: string): string {
    DetailPrefix + ticker + " already exists"
  }

  function NotFoundDetail(ticker: string): string {
    DetailPrefix + ticker + " not found"
  }

  /** `sub` occurs in `s` starting at index `i`. */
  predicate OccursAt(s: string, sub: string, i: int) {
    0 <= i <= |s| - |sub| && s[i..i + |sub|] == sub
  }

  /** `sub in s` for Python strings. */
  ghost predicate Contains(s: string, sub: string) {
    exists i :: OccursAt(s, sub, i)
  }

  /** The middle part of a concatenation occurs in it right after the first part. */
  lemma OccursInMiddle(a: string, b: string, c: string)
    ensures OccursAt(a + b + c, b, |a|)
  {
    assert (a + b + c)[|a|..|a| + |b|] == b;
  }

  /** A conflict detail names the ticker and says "already exists". */
  lemma AlreadyExistsDetailNames(ticker: string)
    ensures Contains(AlreadyExistsDetail(ticker), ticker)
    ensures Contains(AlreadyExistsDetail(ticker), "already exists")
  {
    var d := AlreadyExistsDetail(ticker);
    OccursInMiddle(DetailPrefix, ticker, " already exists");
    assert " already exists" == " " + "already exists";
    assert d == (DetailPrefix + ticker + " ") + "already exists" + "";
    OccursInMiddle(DetailPrefix + ticker + " ", "already exists", "");
  }

  /** A not-found detail names the ticker and says "not found". */
  lemma NotFoundDetailNames(ticker: string)
    ensures Contains(NotFoundDetail(ticker), ticker)
    ensures Contains(NotFoundDetail(ticker), "not found")
  {
    var d := NotFoundDetail(ticker);
    OccursInMiddle(DetailPrefix, ticker, " not found");
    assert " not found" == " " + "not found";
    assert d == (DetailPrefix + ticker + " ") + "not found" + "";
    OccursInMiddle(DetailPrefix + ticker + " ", "not found", "");
  }
}
